/** What the tools read from the environment: the token test and the resolution of the
    GitLab REST base URL from the two overrides. */
module GitLabHelpers {
  import opened Wrappers
  import opened Strings

  /** `if (!token)` on `GITLAB_TOKEN`: the token is set and not empty (it is not trimmed). */
  predicate HasToken(token: Option<string>) {
    token.Some? && token.value != ""
  }

  const DefaultApiUrl := "https://gitlab.com/api/v4"

  /** `process.env.X?.trim()`: an unset variable stays unset. */
  function TrimmedEnv(v: Option<string>): Option<string> {
    match v
    case None => None
    case Some(s) => Some(Trim(s))
  }

  /** A variable that is set to something other than white space (the truthiness test on
      the trimmed value). */
  predicate Given(v: Option<string>) {
    v.Some? && !IsBlank(v.value)
  }

  /** `u` is `t` with at most one trailing slash removed, and it is removed when present. */
  predicate OneSlashStripped(t: string, u: string) {
    if EndsWithSlash(t) then u + "/" == t else u == t
  }

  /** `resolveGitLabApiUrl()` with `GITLAB_API_URL` as `apiUrl` and `GITLAB_HOST` as `host`:
      a given `GITLAB_API_URL` wins, trimmed and without one trailing slash; otherwise a given
      `GITLAB_HOST`, trimmed, without one trailing slash, followed by `/api/v4`; otherwise
      the gitlab.com API. */
  function ResolveGitLabApiUrl(apiUrl: Option<string>, host: Option<string>): (r: string)
    ensures Given(apiUrl) ==> OneSlashStripped(Trim(apiUrl.value), r)
    ensures !Given(apiUrl) && Given(host) ==>
      exists u :: OneSlashStripped(Trim(host.value), u) && r == u + "/api/v4"
    ensures !Given(apiUrl) && !Given(host) ==> r == DefaultApiUrl
  {
    var explicit := TrimmedEnv(apiUrl);
    var trimmedHost := TrimmedEnv(host);
    GivenIffTrimmedNonEmpty(apiUrl);
    GivenIffTrimmedNonEmpty(host);
    if explicit.Some? && explicit.value != "" then
      StripTrailingSlash(explicit.value)
    else if trimmedHost.Some? && trimmedHost.value != "" then
      StripTrailingSlash(trimmedHost.value) + "/api/v4"
    else
      DefaultApiUrl
  }

  lemma GivenIffTrimmedNonEmpty(v: Option<string>)
    ensures Given(v) <==> TrimmedEnv(v).Some? && TrimmedEnv(v).value != ""
  {
    if v.Some? {
      TrimEmptyIffBlank(v.value);
    }
  }

  /** `GITLAB_HOST` plays no part once `GITLAB_API_URL` is given. */
  lemma ExplicitIgnoresHost(apiUrl: Option<string>, host1: Option<string>, host2: Option<string>)
    requires Given(apiUrl)
    ensures ResolveGitLabApiUrl(apiUrl, host1) == ResolveGitLabApiUrl(apiUrl, host2)
  {
    var r1 := ResolveGitLabApiUrl(apiUrl, host1);
    var r2 := ResolveGitLabApiUrl(apiUrl, host2);
    var t := Trim(apiUrl.value);
    assert OneSlashStripped(t, r1) && OneSlashStripped(t, r2);
    if EndsWithSlash(t) {
      assert |r1| == |r2| == |t| - 1;
      assert forall i :: 0 <= i < |r1| ==> r1[i] == (r1 + "/")[i] == (r2 + "/")[i] == r2[i];
    }
  }

  /** Only one trailing slash goes: an override `u//` (with `u` not starting with white
      space) resolves to `u/`. */
  lemma OnlyOneSlashStripped(u: string, host: Option<string>)
    requires u == [] || !IsWhitespace(u[0])
    ensures ResolveGitLabApiUrl(Some(u + "//"), host) == u + "/"
  {
    var s := u + "//";
    assert s[0] == if u == [] then '/' else u[0];
    assert s[|s| - 1] == '/';
    ExplicitUntrimmed(s, host);
    assert s[..|s| - 1] == u + "/";
  }

  /** An override with no white space at either end is used as it is, up to one trailing
      slash. */
  lemma ExplicitUntrimmed(t: string, host: Option<string>)
    requires t != [] && !IsWhitespace(t[0]) && !IsWhitespace(t[|t| - 1])
    ensures ResolveGitLabApiUrl(Some(t), host) == StripTrailingSlash(t)
  {
    TrimOfTrimmed(t);
  }

  /** The same for a host, when there is no override. */
  lemma HostUntrimmed(t: string)
    requires t != [] && !IsWhitespace(t[0]) && !IsWhitespace(t[|t| - 1])
    ensures ResolveGitLabApiUrl(None, Some(t)) == StripTrailingSlash(t) + "/api/v4"
  {
    TrimOfTrimmed(t);
  }

  /** A blank override counts as unset: the host decides. */
  lemma BlankOverrideFallsBack(blank: string, host: Option<string>)
    requires IsBlank(blank)
    ensures ResolveGitLabApiUrl(Some(blank), host) == ResolveGitLabApiUrl(None, host)
  {
    TrimEmptyIffBlank(blank);
    assert TrimmedEnv(Some(blank)) == Some("");
    assert !Given(Some(blank));
  }

  /** A host given as `https://h/` (no white space around it) yields `https://h/api/v4`. */
  lemma HostWithSlash(h: string)
    requires h == [] || !IsWhitespace(h[0])
    ensures ResolveGitLabApiUrl(None, Some(h + "/")) == h + "/api/v4"
  {
    var s := h + "/";
    assert s[0] == if h == [] then '/' else h[0];
    assert s[|s| - 1] == '/';
    HostUntrimmed(s);
    assert s[..|s| - 1] == h;
  }
}
