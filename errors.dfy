/** Every error the modelled tools throw, with the exact message each `new Error(...)`
    carries. */
module Errors {
  import opened Strings

  /** Which side of a merge request a commit belongs to. */
  datatype Role = Source | Target {
    function Name(): string {
      match this
      case Source => "source"
      case Target => "target"
    }
  }

  datatype Error =
    | MissingToken
    | ApiError(status: int, statusText: string, body: string)
    | NotAnArray
    | NotAGitRepository
    | MissingDiffRefs
    | MissingBranchNames
    | MissingCommitSha(role: Role)
    | GitFailed(args: seq<string>, code: int, stderr: string, failureHint: string)
    | CommitUnavailable(sha: string, role: Role, branch: string)
  {
    function Message(): string {
      match this
      case MissingToken => "GITLAB_TOKEN environment variable is required."
      case ApiError(status, statusText, body) =>
        "GitLab API request failed (" + IntToString(status) + " " + statusText + "): " + body
      case NotAnArray => "Expected paged response to be an array."
      case NotAGitRepository =>
        "Current directory is not inside a Git repository. Verify you are running this tool from the correct project workspace."
      case MissingDiffRefs =>
        "Merge request response did not include diff_refs.base_sha and diff_refs.head_sha."
      case MissingBranchNames =>
        "Merge request response did not include source or target branch names."
      case MissingCommitSha(role) => "Missing " + role.Name() + " commit SHA."
      case GitFailed(args, code, stderr, failureHint) => GitMessage(args, code, stderr, failureHint)
      case CommitUnavailable(sha, role, branch) =>
        Join([
          "Commit " + sha + " from the " + role.Name() + " branch \"" + branch + "\" is unavailable even after fetching.",
          "Verify this repository matches the GitLab project and has access to the merge request branches."
        ], " ")
    }
  }

  /** The message `runGit` rejects with when `git` exits with a non-zero code. */
  function GitMessage(args: seq<string>, code: int, stderr: string, failureHint: string): string {
    var detail := if Trim(stderr) != "" then Trim(stderr) else "No stderr.";
    var hint := if failureHint != "" then " " + failureHint else "";
    "git " + Join(args, " ") + " exited with code " + IntToString(code) + ". " + detail + hint
  }

  /** `x` occurs in `s` starting at position `i`. */
  predicate OccursAt(x: string, s: string, i: nat) {
    i + |x| <= |s| && s[i..i + |x|] == x
  }

  /** The message of a failed API request names the status code, the status text and the
      response body, at fixed positions after the fixed prefix. */
  lemma ApiErrorMessageMentions(status: int, statusText: string, body: string)
    ensures var m := ApiError(status, statusText, body).Message();
      var prefix := "GitLab API request failed (";
      var code := IntToString(status);
      && OccursAt(code, m, |prefix|)
      && OccursAt(statusText, m, |prefix| + |code| + 1)
      && OccursAt(body, m, |m| - |body|)
  {
    var m := ApiError(status, statusText, body).Message();
    var prefix := "GitLab API request failed (";
    var code := IntToString(status);
    assert m == prefix + code + " " + statusText + "): " + body;
    assert m[|prefix|..|prefix| + |code|] == code;
    assert m[|prefix| + |code| + 1..|prefix| + |code| + 1 + |statusText|] == statusText;
    assert m[|m| - |body|..] == body;
  }

  /** The message of a failed `git` command starts with the command line and the exit code,
      and ends with the hint when there is one. */
  lemma GitFailedMessageMentions(args: seq<string>, code: int, stderr: string, failureHint: string)
    ensures var m := GitFailed(args, code, stderr, failureHint).Message();
      var command := "git " + Join(args, " ") + " exited with code " + IntToString(code) + ". ";
      && OccursAt(command, m, 0)
      && (failureHint != "" ==> OccursAt(" " + failureHint, m, |m| - |failureHint| - 1))
  {
    var m := GitMessage(args, code, stderr, failureHint);
    var command := "git " + Join(args, " ") + " exited with code " + IntToString(code) + ". ";
    var detail := if Trim(stderr) != "" then Trim(stderr) else "No stderr.";
    var hint := if failureHint != "" then " " + failureHint else "";
    assert m == command + detail + hint;
    assert m[..|command|] == command;
    if failureHint != "" {
      assert m[|m| - |hint|..] == hint;
    }
  }
}
