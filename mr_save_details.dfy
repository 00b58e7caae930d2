/** The save-details tool up to the two files it writes: the Markdown it saves for a merge
    request, the checks it makes on the merge request, and the check that both commits of the
    diff are in the local repository, fetching the branch once when one is not. */
module MrSaveDetails {
  import opened Wrappers
  import opened Strings
  import opened Errors
  import opened GitLabClient
  import opened GitLabHelpers

  // ---------------------------------------------------------------------------
  // The details Markdown

  const NoDescription := "_No description provided._"
  const Untitled := "Untitled merge request"

  /** The description as saved: trimmed, or the placeholder when it is missing or blank. */
  function DescriptionText(description: Option<string>): (d: string)
    ensures description.Some? && !IsBlank(description.value) ==> d == Trim(description.value) && d != ""
    ensures description.None? || IsBlank(description.value) ==> d == NoDescription
  {
    match description
    case None => NoDescription
    case Some(s) =>
      TrimEmptyIffBlank(s);
      SavedText(Trim(s))
  }

  /** An already trimmed description as saved. */
  function SavedText(t: string): string {
    if t != "" then t else NoDescription
  }

  /** `mr.title || "Untitled merge request"`. */
  function TitleText(title: string): (t: string)
    ensures t != ""
    ensures title != "" ==> t == title
    ensures title == "" ==> t == Untitled
  {
    if title != "" then title else Untitled
  }

  /** The eight lines of the details file; the last is empty, so the file ends with a line
      break. */
  function DetailsLines(mr: MergeRequest): seq<string> {
    [ "# " + TitleText(mr.title) + " (!" + IntToString(mr.iid) + ")",
      "",
      "- IID: " + IntToString(mr.iid),
      "",
      "## Description",
      "",
      DescriptionText(mr.description),
      "" ]
  }

  /** `formatDetailsMarkdown`: the lines joined with line breaks. Whatever the description
      holds, it comes last, whole, followed by one line break. */
  function FormatDetailsMarkdown(mr: MergeRequest): (r: string)
    ensures r == Join(DetailsLines(mr)[..6], "\n") + "\n" + DescriptionText(mr.description) + "\n"
    ensures |r| > 0 && r[|r| - 1] == '\n'
  {
    var lines := DetailsLines(mr);
    JoinSnoc(lines[..6], lines[6], "\n");
    assert lines[..7] == lines[..6] + [lines[6]];
    JoinSnoc(lines[..7], lines[7], "\n");
    assert lines == lines[..7] + [lines[7]];
    Join(lines, "\n")
  }

  /** With a one-line title and description, the file reads back as exactly its eight lines:
      the heading, `- IID: <iid>`, `## Description` and the description, separated by empty
      lines, and an empty last line. */
  lemma DetailsHaveEightLines(mr: MergeRequest)
    requires '\n' !in mr.title && '\n' !in DescriptionText(mr.description)
    ensures var lines := Split(FormatDetailsMarkdown(mr), '\n');
      && |lines| == 8
      && lines[0] == "# " + TitleText(mr.title) + " (!" + IntToString(mr.iid) + ")"
      && lines[2] == "- IID: " + IntToString(mr.iid)
      && lines[4] == "## Description"
      && lines[6] == DescriptionText(mr.description)
      && lines[1] == lines[3] == lines[5] == lines[7] == ""
  {
    DetailsLinesHaveNoBreak(mr);
    SplitJoin(DetailsLines(mr), '\n');
  }

  lemma DetailsLinesHaveNoBreak(mr: MergeRequest)
    requires '\n' !in mr.title && '\n' !in DescriptionText(mr.description)
    ensures forall k :: 0 <= k < |DetailsLines(mr)| ==> '\n' !in DetailsLines(mr)[k]
  {
    var lines := DetailsLines(mr);
    var iid := IntToString(mr.iid);
    NumberHasNoNewline(mr.iid);
    forall k | 0 <= k < |lines|
      ensures '\n' !in lines[k]
    {
      if k == 0 {
        HeadingHasNoBreak(mr.title, iid);
      } else if k == 2 || k == 4 {
        IidLineHasNoBreak(iid);
      } else if k != 6 {
        assert lines[k] == "";
      }
    }
  }

  lemma HeadingHasNoBreak(title: string, iid: string)
    requires '\n' !in title && '\n' !in iid
    ensures '\n' !in "# " + TitleText(title) + " (!" + iid + ")"
  {
    assert '\n' !in Untitled;
  }

  lemma IidLineHasNoBreak(iid: string)
    requires '\n' !in iid
    ensures '\n' !in "- IID: " + iid && '\n' !in "## Description"
  {
  }

  /** A blank description is saved as a missing one. */
  lemma BlankDescriptionIsMissing(mr: MergeRequest, blank: string)
    requires IsBlank(blank)
    ensures FormatDetailsMarkdown(mr.(description := Some(blank)))
         == FormatDetailsMarkdown(mr.(description := None))
  {
  }

  /** Trimming the description first changes nothing. */
  lemma TrimmedDescriptionSavesAlike(mr: MergeRequest, description: string)
    ensures FormatDetailsMarkdown(mr.(description := Some(Trim(description))))
         == FormatDetailsMarkdown(mr.(description := Some(description)))
  {
    TrimmedDescriptionAlike(description);
    SameDescriptionSavesAlike(mr.(description := Some(Trim(description))), mr.(description := Some(description)));
  }

  lemma TrimmedDescriptionAlike(description: string)
    ensures DescriptionText(Some(Trim(description))) == DescriptionText(Some(description))
  {
    TrimIdempotent(description);
    assert DescriptionText(Some(Trim(description))) == SavedText(Trim(Trim(description)));
  }

  /** The details depend on the description only through its saved text. */
  lemma SameDescriptionSavesAlike(a: MergeRequest, b: MergeRequest)
    requires a.title == b.title && a.iid == b.iid
    requires DescriptionText(a.description) == DescriptionText(b.description)
    ensures FormatDetailsMarkdown(a) == FormatDetailsMarkdown(b)
  {
    assert DetailsLines(a) == DetailsLines(b);
  }

  // ---------------------------------------------------------------------------
  // Checks on the merge request

  /** A value JavaScript takes as true: present and not the empty string. */
  predicate Truthy(v: Option<string>) {
    v.Some? && v.value != ""
  }

  predicate HasDiffRefs(mr: MergeRequest) {
    mr.diffRefs.Some? && Truthy(mr.diffRefs.value.baseSha) && Truthy(mr.diffRefs.value.headSha)
  }

  predicate HasBranchNames(mr: MergeRequest) {
    mr.sourceBranch != "" && mr.targetBranch != ""
  }

  /** The two commits to diff and the branches they come from. */
  datatype DiffTarget = DiffTarget(baseSha: string, headSha: string, sourceBranch: string, targetBranch: string)

  /** The two checks of `execute` on the merge request, in order: `diff_refs` with both
      commits first, then both branch names. */
  function CheckMergeRequest(mr: MergeRequest): (r: Result<DiffTarget, Error>)
    ensures r.Success? <==> HasDiffRefs(mr) && HasBranchNames(mr)
    ensures !HasDiffRefs(mr) ==> r == Failure(MissingDiffRefs)
    ensures HasDiffRefs(mr) && !HasBranchNames(mr) ==> r == Failure(MissingBranchNames)
    ensures r.Success? ==>
      && r.value.baseSha == mr.diffRefs.value.baseSha.value != ""
      && r.value.headSha == mr.diffRefs.value.headSha.value != ""
      && r.value.sourceBranch == mr.sourceBranch
      && r.value.targetBranch == mr.targetBranch
  {
    if mr.diffRefs.None? || !Truthy(mr.diffRefs.value.baseSha) || !Truthy(mr.diffRefs.value.headSha) then
      Failure(MissingDiffRefs)
    else if mr.sourceBranch == "" || mr.targetBranch == "" then
      Failure(MissingBranchNames)
    else
      Success(DiffTarget(mr.diffRefs.value.baseSha.value, mr.diffRefs.value.headSha.value,
                         mr.sourceBranch, mr.targetBranch))
  }

  // ---------------------------------------------------------------------------
  // The local repository

  /** What `git fetch --quiet <remote> <branch>` does: it brings in some commits, or it
      exits with a non-zero code and an error output. */
  datatype FetchOutcome = Fetched(commits: set<string>) | FetchFailed(code: int, stderr: string)

  /** `process.env.GIT_REMOTE_NAME || "origin"`. */
  function RemoteName(env: Option<string>): (name: string)
    ensures name != ""
    ensures Truthy(env) ==> name == env.value
    ensures !Truthy(env) ==> name == "origin"
  {
    if Truthy(env) then env.value else "origin"
  }

  function FetchArgs(remoteName: string, branch: string): seq<string> {
    ["fetch", "--quiet", remoteName, branch]
  }

  function FetchHint(role: Role, branch: string, remoteName: string): string {
    "Unable to fetch " + role.Name() + " branch \"" + branch + "\" from remote \"" + remoteName
    + "\". Ensure the remote exists or fetch the merge request refs manually."
  }

  /** What `git diff <base>...<head>` does: it prints the diff, or it exits with a non-zero
      code and an error output. */
  datatype DiffOutcome = DiffOutput(stdout: string) | DiffFailed(code: int, stderr: string)

  function DiffArgs(baseSha: string, headSha: string): seq<string> {
    ["diff", baseSha + "..." + headSha]
  }

  const DiffHint := "Verify you are running this tool inside the repository that matches the investigated merge request."

  /** `runGitDiff(baseSha, headSha)` given what the `git diff` does: its output on success,
      otherwise the `git diff` arguments, exit code, error output and hint. */
  function DiffResult(o: DiffOutcome, baseSha: string, headSha: string): (r: Result<string, Error>)
    ensures r.Success? <==> o.DiffOutput?
    ensures r.Success? ==> r.value == o.stdout
    ensures r.Failure? ==> r.error == GitFailed(DiffArgs(baseSha, headSha), o.code, o.stderr, DiffHint)
  {
    match o
    case DiffOutput(stdout) => Success(stdout)
    case DiffFailed(code, stderr) => Failure(GitFailed(DiffArgs(baseSha, headSha), code, stderr, DiffHint))
  }

  /** The local repository as the tool sees it through `git`. */
  class GitRepository {
    /** Whether `git rev-parse --is-inside-work-tree` prints `true`. */
    const insideWorkTree: bool
    /** What a fetch of each (remote, branch) does. */
    const remote: (string, string) -> FetchOutcome
    /** The commits `git cat-file -e <sha>^{commit}` finds. */
    var commits: set<string>
    /** What `git diff <base>...<head>` does for each pair of commits. */
    const diff: (string, string) -> DiffOutcome
    /** The (remote, branch) pairs fetched so far, oldest first. */
    ghost var fetches: seq<(string, string)>

    constructor (insideWorkTree: bool, remote: (string, string) -> FetchOutcome,
                 diff: (string, string) -> DiffOutcome, commits: set<string>)
      ensures this.insideWorkTree == insideWorkTree && this.remote == remote && this.diff == diff
      ensures this.commits == commits && fetches == []
    {
      this.insideWorkTree := insideWorkTree;
      this.remote := remote;
      this.diff := diff;
      this.commits := commits;
      fetches := [];
    }

    /** `gitHasObject(sha)`. */
    method HasCommit(sha: string) returns (present: bool)
      ensures present <==> sha in commits
    {
      present := sha in commits;
    }

    /** `runGit(["fetch", "--quiet", remoteName, branch], { failureHint })`. */
    method Fetch(remoteName: string, branch: string, failureHint: string) returns (o: Outcome<Error>)
      modifies this
      ensures fetches == old(fetches) + [(remoteName, branch)]
      ensures match remote(remoteName, branch)
        case Fetched(more) => o == Pass && commits == old(commits) + more
        case FetchFailed(code, stderr) =>
          o == Fail(GitFailed(FetchArgs(remoteName, branch), code, stderr, failureHint))
          && commits == old(commits)
    {
      fetches := fetches + [(remoteName, branch)];
      match remote(remoteName, branch)
      case Fetched(more) =>
        commits := commits + more;
        o := Pass;
      case FetchFailed(code, stderr) =>
        o := Fail(GitFailed(FetchArgs(remoteName, branch), code, stderr, failureHint));
    }

    /** `runGitDiff(baseSha, headSha)`: it changes nothing in the repository. */
    method Diff(baseSha: string, headSha: string) returns (r: Result<string, Error>)
      ensures r == DiffResult(diff(baseSha, headSha), baseSha, headSha)
    {
      match diff(baseSha, headSha)
      case DiffOutput(stdout) =>
        r := Success(stdout);
      case DiffFailed(code, stderr) =>
        r := Failure(GitFailed(DiffArgs(baseSha, headSha), code, stderr, DiffHint));
    }
  }

  /** The result of making sure one commit is present: the outcome, the commits present
      afterwards, and whether a fetch was made. */
  datatype Availability = Availability(outcome: Outcome<Error>, commits: set<string>, fetched: bool)

  /** What `ensureCommitAvailable(sha, branch, role)` does to a repository holding `commits`
      whose fetch of `branch` from `remoteName` would have the outcome `fetch`. It succeeds
      exactly when the commit is present afterwards; it fetches exactly when the commit is
      named and absent, and then only once; it never loses a commit. */
  function CommitAvailability(commits: set<string>, fetch: FetchOutcome, remoteName: string,
                              sha: string, branch: string, role: Role): (a: Availability)
    ensures a.outcome.Pass? <==> sha != "" && sha in a.commits
    ensures a.fetched <==> sha != "" && sha !in commits
    ensures commits <= a.commits && (!a.fetched ==> a.commits == commits)
    ensures sha == "" ==> a.outcome == Fail(MissingCommitSha(role))
    ensures a.fetched && fetch.FetchFailed? ==>
      a.outcome == Fail(GitFailed(FetchArgs(remoteName, branch), fetch.code, fetch.stderr,
                                  FetchHint(role, branch, remoteName)))
    ensures a.fetched && fetch.Fetched? && sha !in a.commits ==>
      a.outcome == Fail(CommitUnavailable(sha, role, branch))
  {
    if sha == "" then Availability(Fail(MissingCommitSha(role)), commits, false)
    else if sha in commits then Availability(Pass, commits, false)
    else
      match fetch
      case FetchFailed(code, stderr) =>
        Availability(Fail(GitFailed(FetchArgs(remoteName, branch), code, stderr,
                                    FetchHint(role, branch, remoteName))), commits, true)
      case Fetched(more) =>
        var after := commits + more;
        Availability(if sha in after then Pass else Fail(CommitUnavailable(sha, role, branch)), after, true)
  }

  /** `ensureCommitAvailable(sha, branch, role)` with `GIT_REMOTE_NAME` as `remoteEnv`. */
  method EnsureCommitAvailable(repo: GitRepository, sha: string, branch: string, role: Role,
                               remoteEnv: Option<string>)
    returns (o: Outcome<Error>)
    modifies repo
    ensures o == CommitAvailability(old(repo.commits), repo.remote(RemoteName(remoteEnv), branch),
                                    RemoteName(remoteEnv), sha, branch, role).outcome
    ensures repo.commits == CommitAvailability(old(repo.commits), repo.remote(RemoteName(remoteEnv), branch),
                                               RemoteName(remoteEnv), sha, branch, role).commits
    ensures repo.fetches == old(repo.fetches)
      + FetchesOf(CommitAvailability(old(repo.commits), repo.remote(RemoteName(remoteEnv), branch),
                                     RemoteName(remoteEnv), sha, branch, role), RemoteName(remoteEnv), branch)
  {
    if sha == "" {
      return Fail(MissingCommitSha(role));
    }
    var present := repo.HasCommit(sha);
    if present {
      return Pass;
    }
    var remoteName := RemoteName(remoteEnv);
    var fetched := repo.Fetch(remoteName, branch, FetchHint(role, branch, remoteName));
    if fetched.Fail? {
      return fetched;
    }
    present := repo.HasCommit(sha);
    if present {
      return Pass;
    }
    return Fail(CommitUnavailable(sha, role, branch));
  }

  // ---------------------------------------------------------------------------
  // execute

  /** What the tool writes: the details Markdown, and the output of the `git diff` that goes
      to the diff file. */
  datatype SavedDetails = SavedDetails(details: string, diff: string)

  /** The outcome of making both commits of a diff available, the commits present
      afterwards and the fetches made. */
  datatype Fetching = Fetching(outcome: Outcome<Error>, commits: set<string>, fetches: seq<(string, string)>)

  function FetchesOf(a: Availability, remoteName: string, branch: string): seq<(string, string)> {
    if a.fetched then [(remoteName, branch)] else []
  }

  /** The two `ensureCommitAvailable` calls of `execute`: the base commit on the target
      branch first, and the head commit on the source branch only once that succeeded.
      Success leaves both commits present. */
  function DiffAvailability(commits: set<string>, remote: (string, string) -> FetchOutcome,
                            remoteName: string, target: DiffTarget): (f: Fetching)
    ensures commits <= f.commits && |f.fetches| <= 2
    ensures f.outcome.Pass? ==> target.baseSha in f.commits && target.headSha in f.commits
  {
    var base := CommitAvailability(commits, remote(remoteName, target.targetBranch), remoteName,
                                   target.baseSha, target.targetBranch, Target);
    if base.outcome.Fail? then Fetching(base.outcome, base.commits, FetchesOf(base, remoteName, target.targetBranch))
    else
      var head := CommitAvailability(base.commits, remote(remoteName, target.sourceBranch), remoteName,
                                     target.headSha, target.sourceBranch, Source);
      Fetching(head.outcome, head.commits,
               FetchesOf(base, remoteName, target.targetBranch) + FetchesOf(head, remoteName, target.sourceBranch))
  }

  method MakeDiffAvailable(repo: GitRepository, target: DiffTarget, remoteEnv: Option<string>)
    returns (o: Outcome<Error>)
    modifies repo
    ensures o == DiffAvailability(old(repo.commits), repo.remote, RemoteName(remoteEnv), target).outcome
    ensures repo.commits == DiffAvailability(old(repo.commits), repo.remote, RemoteName(remoteEnv), target).commits
    ensures repo.fetches
         == old(repo.fetches) + DiffAvailability(old(repo.commits), repo.remote, RemoteName(remoteEnv), target).fetches
  {
    o := EnsureCommitAvailable(repo, target.baseSha, target.targetBranch, Target, remoteEnv);
    if o.Pass? {
      o := EnsureCommitAvailable(repo, target.headSha, target.sourceBranch, Source, remoteEnv);
    }
  }

  /** The outcome of `execute`, the commits present afterwards and the fetches made. */
  datatype Saving = Saving(result: Result<SavedDetails, Error>, commits: set<string>, fetches: seq<(string, string)>)

  /** What `execute({ projectId, mrIID, ... })` does, apart from writing the files, given the
      token, the server, and a repository inside a work tree or not, holding `commits`, whose
      fetches would have the outcomes `remote` and whose diffs the outcomes `diff`. The token,
      the merge request, the repository and the two checks on the merge request come first
      and fetch nothing; then both commits of the diff are made available; then the diff
      is run. */
  function SaveOutcome(token: Option<string>, api: GitLabApi, projectId: int, mrIID: int,
                       insideWorkTree: bool, remote: (string, string) -> FetchOutcome,
                       diff: (string, string) -> DiffOutcome,
                       remoteName: string, commits: set<string>): (s: Saving)
    ensures commits <= s.commits && |s.fetches| <= 2
    ensures s.result.Success? ==>
      && HasToken(token) && insideWorkTree
      && api.GetMergeRequest(projectId, mrIID).Success?
      && var mr := api.GetMergeRequest(projectId, mrIID).value;
         CheckMergeRequest(mr).Success?
         && var target := CheckMergeRequest(mr).value;
            && target.baseSha in s.commits && target.headSha in s.commits
            && diff(target.baseSha, target.headSha).DiffOutput?
            && s.result.value == SavedDetails(FormatDetailsMarkdown(mr),
                                              diff(target.baseSha, target.headSha).stdout)
  {
    if !HasToken(token) then Saving(Failure(MissingToken), commits, [])
    else
      match api.GetMergeRequest(projectId, mrIID)
      case Failure(e) => Saving(Failure(e), commits, [])
      case Success(mr) =>
        if !insideWorkTree then Saving(Failure(NotAGitRepository), commits, [])
        else
          match CheckMergeRequest(mr)
          case Failure(e) => Saving(Failure(e), commits, [])
          case Success(target) =>
            var f := DiffAvailability(commits, remote, remoteName, target);
            if f.outcome.Fail? then Saving(Failure(f.outcome.error), f.commits, f.fetches)
            else
              match DiffResult(diff(target.baseSha, target.headSha), target.baseSha, target.headSha)
              case Failure(e) => Saving(Failure(e), f.commits, f.fetches)
              case Success(output) => Saving(Success(SavedDetails(FormatDetailsMarkdown(mr), output)), f.commits, f.fetches)
  }

  /** `execute` of the save-details tool, apart from writing the files. `remoteEnv` is
      `GIT_REMOTE_NAME`; `GITLAB_API_URL` and `GITLAB_HOST` are `apiUrl` and `host`, and `api` is
      the server at the URL they resolve to. */
  method SaveMergeRequestDetails(token: Option<string>, apiUrl: Option<string>, host: Option<string>,
                                 api: GitLabApi, projectId: int, mrIID: int,
                                 repo: GitRepository, remoteEnv: Option<string>)
    returns (r: Result<SavedDetails, Error>)
    modifies repo
    ensures r == SaveOutcome(token, api, projectId, mrIID, repo.insideWorkTree, repo.remote, repo.diff,
                             RemoteName(remoteEnv), old(repo.commits)).result
    ensures repo.commits == SaveOutcome(token, api, projectId, mrIID, repo.insideWorkTree, repo.remote, repo.diff,
                                        RemoteName(remoteEnv), old(repo.commits)).commits
    ensures repo.fetches == old(repo.fetches) + SaveOutcome(token, api, projectId, mrIID, repo.insideWorkTree,
                                                            repo.remote, repo.diff, RemoteName(remoteEnv), old(repo.commits)).fetches
  {
    if token.None? || token.value == "" {
      return Failure(MissingToken);
    }
    var baseUrl := ResolveGitLabApiUrl(apiUrl, host);
    var mergeRequest := api.GetMergeRequest(projectId, mrIID);
    if mergeRequest.Failure? {
      return Failure(mergeRequest.error);
    }
    var mr := mergeRequest.value;
    if !repo.insideWorkTree {
      return Failure(NotAGitRepository);
    }
    var checked := CheckMergeRequest(mr);
    if checked.Failure? {
      return Failure(checked.error);
    }
    var target := checked.value;
    var available := MakeDiffAvailable(repo, target, remoteEnv);
    if available.Fail? {
      return Failure(available.error);
    }
    var details := FormatDetailsMarkdown(mr);
    var diffed := repo.Diff(target.baseSha, target.headSha);
    if diffed.Failure? {
      return Failure(diffed.error);
    }
    return Success(SavedDetails(details, diffed.value));
  }

  /** Nothing is fetched and no commit is added before every earlier check has passed. */
  lemma ChecksBeforeFetching(token: Option<string>, api: GitLabApi, projectId: int, mrIID: int,
                             insideWorkTree: bool, remote: (string, string) -> FetchOutcome,
                             diff: (string, string) -> DiffOutcome, remoteName: string, commits: set<string>)
    requires !HasToken(token) || api.GetMergeRequest(projectId, mrIID).Failure? || !insideWorkTree
             || CheckMergeRequest(api.GetMergeRequest(projectId, mrIID).value).Failure?
    ensures var s := SaveOutcome(token, api, projectId, mrIID, insideWorkTree, remote, diff, remoteName, commits);
      s.result.Failure? && s.fetches == [] && s.commits == commits
  {
  }

  /** The target side comes first: when the base commit cannot be made available, the tool
      fails with that error and never fetches the source branch. */
  lemma TargetBeforeSource(token: Option<string>, api: GitLabApi, projectId: int, mrIID: int,
                           remote: (string, string) -> FetchOutcome, diff: (string, string) -> DiffOutcome,
                           remoteName: string, commits: set<string>)
    requires HasToken(token) && api.GetMergeRequest(projectId, mrIID).Success?
    requires CheckMergeRequest(api.GetMergeRequest(projectId, mrIID).value).Success?
    requires var target := CheckMergeRequest(api.GetMergeRequest(projectId, mrIID).value).value;
      target.baseSha !in commits
      && (remote(remoteName, target.targetBranch).FetchFailed?
          || target.baseSha !in remote(remoteName, target.targetBranch).commits)
    ensures var target := CheckMergeRequest(api.GetMergeRequest(projectId, mrIID).value).value;
      var s := SaveOutcome(token, api, projectId, mrIID, true, remote, diff, remoteName, commits);
      && s.result.Failure?
      && s.fetches == [(remoteName, target.targetBranch)]
  {
  }

  /** When both commits are already present, the tool fetches nothing, and it succeeds
      exactly when the `git diff` does. */
  lemma PresentCommitsNeedNoFetch(token: Option<string>, api: GitLabApi, projectId: int, mrIID: int,
                                  remote: (string, string) -> FetchOutcome, diff: (string, string) -> DiffOutcome,
                                  remoteName: string, commits: set<string>)
    requires HasToken(token) && api.GetMergeRequest(projectId, mrIID).Success?
    requires CheckMergeRequest(api.GetMergeRequest(projectId, mrIID).value).Success?
    requires var target := CheckMergeRequest(api.GetMergeRequest(projectId, mrIID).value).value;
      target.baseSha in commits && target.headSha in commits
    ensures var target := CheckMergeRequest(api.GetMergeRequest(projectId, mrIID).value).value;
      var s := SaveOutcome(token, api, projectId, mrIID, true, remote, diff, remoteName, commits);
      && (s.result.Success? <==> diff(target.baseSha, target.headSha).DiffOutput?)
      && s.fetches == [] && s.commits == commits
  {
  }

  /** The diff runs last: when every check passed and both commits are available but
      `git diff` fails, the tool fails with the `git diff` error, and the commits and fetches
      are those of making the diff available. */
  lemma DiffFailureReported(token: Option<string>, api: GitLabApi, projectId: int, mrIID: int,
                            remote: (string, string) -> FetchOutcome, diff: (string, string) -> DiffOutcome,
                            remoteName: string, commits: set<string>)
    requires HasToken(token) && api.GetMergeRequest(projectId, mrIID).Success?
    requires CheckMergeRequest(api.GetMergeRequest(projectId, mrIID).value).Success?
    requires var target := CheckMergeRequest(api.GetMergeRequest(projectId, mrIID).value).value;
      DiffAvailability(commits, remote, remoteName, target).outcome.Pass?
      && diff(target.baseSha, target.headSha).DiffFailed?
    ensures var target := CheckMergeRequest(api.GetMergeRequest(projectId, mrIID).value).value;
      var o := diff(target.baseSha, target.headSha);
      var f := DiffAvailability(commits, remote, remoteName, target);
      var s := SaveOutcome(token, api, projectId, mrIID, true, remote, diff, remoteName, commits);
      && s.result == Failure(GitFailed(DiffArgs(target.baseSha, target.headSha), o.code, o.stderr, DiffHint))
      && s.commits == f.commits && s.fetches == f.fetches
  {
  }
}
