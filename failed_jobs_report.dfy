/** The markdown report of the failed-jobs tool: cell escaping, the order of the rows, the
    table, and the steps of `execute` that lead to it. */
module FailedJobsReport {
  import opened Wrappers
  import opened Strings
  import opened Errors
  import opened GitLabClient
  import opened GitLabHelpers
  import opened PipelineTree
  import opened FailedJobRows

  // ---------------------------------------------------------------------------
  // escapeCell

  function PipeCount(s: string): nat {
    if s == [] then 0 else (if s[0] == '|' then 1 else 0) + PipeCount(s[1..])
  }

  /** `value.replace(/\|/g, "\\|")`: every `|` becomes `\|`, all other characters stay. */
  function EscapeCell(s: string): (r: string)
    ensures |r| == |s| + PipeCount(s)
    ensures r == [] || r[0] != '|'
  {
    if s == [] then []
    else (if s[0] == '|' then "\\|" else [s[0]]) + EscapeCell(s[1..])
  }

  /** Escaping leaves a string without pipes as it is. */
  lemma {:induction false} EscapeCellNoPipe(s: string)
    requires '|' !in s
    ensures EscapeCell(s) == s
  {
    if s != [] {
      assert '|' !in s[1..] by {
        assert forall k :: 0 <= k < |s[1..]| ==> s[1..][k] == s[k + 1];
      }
      EscapeCellNoPipe(s[1..]);
      assert s == [s[0]] + s[1..];
    }
  }

  /** In an escaped cell every `|` is preceded by a backslash, so no cell content ends a
      markdown table cell. */
  lemma {:induction false} EscapedPipesProtected(s: string)
    ensures forall i :: 0 <= i < |EscapeCell(s)| && EscapeCell(s)[i] == '|' ==> i > 0 && EscapeCell(s)[i - 1] == '\\'
  {
    if s != [] {
      EscapedPipesProtected(s[1..]);
      var head: string := if s[0] == '|' then "\\|" else [s[0]];
      var tail := EscapeCell(s[1..]);
      assert forall k :: 0 <= k < |tail| && tail[k] == '|' ==> k > 0 && tail[k - 1] == '\\';
      var r := EscapeCell(s);
      assert r == head + tail;
      forall i | |head| < i < |r| && r[i] == '|'
        ensures r[i - 1] == '\\'
      {
        var j := i - |head|;
        assert r[i] == tail[j] == '|';
        assert 0 < j && tail[j - 1] == '\\';
        assert r[i - 1] == tail[j - 1];
      }
      assert r[0] == head[0];
      if s[0] == '|' {
        assert r[1] == '|';
      }
      if |tail| > 0 {
        assert r[|head|] == tail[0];
      }
    }
  }

  /** Reading an escaped cell back: `\|` becomes `|`, every other character stays. */
  function UnescapeCell(r: string): string
  {
    if r == [] then []
    else if |r| >= 2 && r[0] == '\\' && r[1] == '|' then "|" + UnescapeCell(r[2..])
    else [r[0]] + UnescapeCell(r[1..])
  }

  /** Escaping loses nothing: the original cell is recovered from the escaped one. */
  lemma {:induction false} UnescapeEscapeCell(s: string)
    ensures UnescapeCell(EscapeCell(s)) == s
  {
    if s != [] {
      UnescapeEscapeCell(s[1..]);
      var tail := EscapeCell(s[1..]);
      if s[0] == '|' {
        assert EscapeCell(s) == "\\|" + tail;
        assert EscapeCell(s)[2..] == tail;
      } else {
        assert EscapeCell(s) == [s[0]] + tail;
        assert EscapeCell(s)[1..] == tail;
      }
      assert s == [s[0]] + s[1..];
    }
  }

  // ---------------------------------------------------------------------------
  // The order of the rows

  /** The comparator `a.pipelineId - b.pipelineId || a.jobId - b.jobId`: the pipeline id
      difference unless it is 0, then the job id difference. */
  function Compare(a: FailedJobRow, b: FailedJobRow): (c: int)
    ensures c < 0 <==> a.pipelineId < b.pipelineId || (a.pipelineId == b.pipelineId && a.jobId < b.jobId)
    ensures c > 0 <==> b.pipelineId < a.pipelineId || (a.pipelineId == b.pipelineId && b.jobId < a.jobId)
  {
    if a.pipelineId - b.pipelineId != 0 then a.pipelineId - b.pipelineId else a.jobId - b.jobId
  }

  /** Ascending by pipeline id, then by job id. */
  predicate Le(a: FailedJobRow, b: FailedJobRow) {
    a.pipelineId < b.pipelineId || (a.pipelineId == b.pipelineId && a.jobId <= b.jobId)
  }

  /** The comparator orders rows by (pipeline id, job id): it is negative, zero or positive
      exactly as the pair of `a` is below, equal to or above that of `b`. */
  lemma CompareIsLexicographic(a: FailedJobRow, b: FailedJobRow)
    ensures Compare(a, b) <= 0 <==> Le(a, b)
    ensures Compare(a, b) == 0 <==> a.pipelineId == b.pipelineId && a.jobId == b.jobId
    ensures Compare(a, b) == -Compare(b, a)
  {
  }

  predicate Sorted(s: seq<FailedJobRow>) {
    forall k, l :: 0 <= k < l < |s| ==> Le(s[k], s[l])
  }

  /** The first `n` rows are in order. */
  predicate SortedPrefix(s: seq<FailedJobRow>, n: nat)
    requires n <= |s|
  {
    forall k, l :: 0 <= k < l < n ==> Le(s[k], s[l])
  }

  /** `failedJobs.sort(comparator)`, as an insertion sort in place: afterwards the array
      holds the same rows, ascending by (pipeline id, job id). */
  method SortRows(a: array<FailedJobRow>)
    modifies a
    ensures Sorted(a[..])
    ensures multiset(a[..]) == multiset(old(a[..]))
  {
    for i := 0 to a.Length
      invariant SortedPrefix(a[..], i)
      invariant multiset(a[..]) == multiset(old(a[..]))
    {
      InsertLast(a, i);
    }
  }

  /** One pass of the insertion sort: `a[i]` moves down past every larger row before it. */
  method InsertLast(a: array<FailedJobRow>, i: nat)
    requires i < a.Length && SortedPrefix(a[..], i)
    modifies a
    ensures SortedPrefix(a[..], i + 1)
    ensures multiset(a[..]) == multiset(old(a[..]))
  {
    var j := i;
    while j > 0 && Compare(a[j - 1], a[j]) > 0
      invariant 0 <= j <= i < a.Length
      invariant Sinking(a[..], j, i)
      invariant multiset(a[..]) == multiset(old(a[..]))
    {
      CompareIsLexicographic(a[j - 1], a[j]);
      ghost var before := a[..];
      SinkStep(before, j, i);
      a[j - 1], a[j] := a[j], a[j - 1];
      assert a[..] == Swap(before, j);
      j := j - 1;
    }
    if j > 0 {
      CompareIsLexicographic(a[j - 1], a[j]);
    }
    SinkDone(a[..], j, i);
  }

  /** While `s[j]` sinks into the sorted `s[..i]`: the other rows up to `i` are in order,
      and `s[j]` is below every row after it. */
  predicate Sinking(s: seq<FailedJobRow>, j: nat, i: nat)
    requires j <= i < |s|
  {
    && (forall k, l :: 0 <= k < l <= i && k != j && l != j ==> Le(s[k], s[l]))
    && (forall l :: j < l <= i ==> Le(s[j], s[l]))
  }

  function Swap(s: seq<FailedJobRow>, j: nat): (r: seq<FailedJobRow>)
    requires 0 < j < |s|
    ensures multiset(r) == multiset(s)
  {
    s[j - 1 := s[j]][j := s[j - 1]]
  }

  lemma SinkStep(s: seq<FailedJobRow>, j: nat, i: nat)
    requires 0 < j <= i < |s| && Sinking(s, j, i) && !Le(s[j - 1], s[j])
    ensures Sinking(Swap(s, j), j - 1, i)
  {
  }

  lemma SinkDone(s: seq<FailedJobRow>, j: nat, i: nat)
    requires j <= i < |s| && Sinking(s, j, i) && (j == 0 || Le(s[j - 1], s[j]))
    ensures SortedPrefix(s, i + 1)
  {
  }

  // ---------------------------------------------------------------------------
  // The report

  /** One heading line naming the IID, then an empty line. */
  function Header(mrIID: int): (h: string)
    ensures |h| > 3 && h[|h| - 3..] == ":\n\n"
    ensures '\n' !in h[..|h| - 2]
  {
    var heading := "# Failed jobs for the MR IID " + IntToString(mrIID) + ":";
    NumberHasNoNewline(mrIID);
    assert (heading + "\n\n")[..|heading|] == heading;
    heading + "\n\n"
  }

  const NoHeadPipeline := "No head pipeline found for this merge request."
  const NoFailedJobs := "No failed jobs found."

  /** The two lines that open the table: the column names and the Markdown alignment rule. */
  const ColumnLine := "|pipelineID|pipelineName|jobID|jobName|"
  const RuleLine := "| -------- | ---------- | --- | ----- |"
  const TableHeader := ColumnLine + "\n" + RuleLine

  /** The table line of one row, with both names escaped. */
  function TableLine(row: FailedJobRow): (line: string)
    ensures |line| >= 4 && line[..2] == "| " && line[|line| - 2..] == " |"
  {
    var inner := IntToString(row.pipelineId) + " | " + EscapeCell(row.pipelineName) + " | "
                 + IntToString(row.jobId) + " | " + EscapeCell(row.jobName);
    assert ("| " + inner + " |")[..2] == "| ";
    "| " + inner + " |"
  }

  function TableLines(rows: seq<FailedJobRow>): (lines: seq<string>)
    ensures |lines| == |rows| && forall k :: 0 <= k < |rows| ==> lines[k] == TableLine(rows[k])
  {
    if rows == [] then [] else [TableLine(rows[0])] + TableLines(rows[1..])
  }

  /** The text after the header, for the rows in their final order. */
  function Body(sorted: seq<FailedJobRow>): (b: string)
    ensures sorted == [] ==> b == NoFailedJobs
    ensures sorted != [] ==> |b| > |TableHeader| && b[..|TableHeader|] == TableHeader
  {
    if sorted == [] then NoFailedJobs
    else TableHeader + "\n" + Join(TableLines(sorted), "\n")
  }

  /** The sorted rows and the rows found are the same rows. */
  ghost predicate SortedPermutation(sorted: seq<FailedJobRow>, rows: seq<FailedJobRow>) {
    Sorted(sorted) && multiset(sorted) == multiset(rows)
  }

  /** The head pipeline is walked in its own project, or in the merge request's project when
      the pipeline does not name one. */
  function Root(headPipeline: PipelineSummary, projectId: int): (root: PipelineRef)
    ensures root.id == headPipeline.id
    ensures root.projectId == if headPipeline.projectId.Some? then headPipeline.projectId.value else projectId
  {
    PipelineRef(headPipeline.id, headPipeline.projectId.GetOr(projectId))
  }

  /** What `execute` answers, given the token, the server and the arguments, once the rows
      found are put in the order `sorted`. */
  ghost predicate IsReport(token: Option<string>, api: GitLabApi, projectId: int, mrIID: int,
                           r: Result<string, Error>, sorted: seq<FailedJobRow>) {
    if !HasToken(token) then r == Failure(MissingToken)
    else
      match api.GetMergeRequest(projectId, mrIID)
      case Failure(e) => r == Failure(e)
      case Success(mr) =>
        match mr.headPipeline
        case None => r == Success(Header(mrIID) + NoHeadPipeline)
        case Some(headPipeline) =>
          match Pipelines(api, Root(headPipeline, projectId))
          case Failure(e) => r == Failure(e)
          case Success(pipelines) =>
            match AggregateRows(api, pipelines)
            case Failure(e) => r == Failure(e)
            case Success(rows) => SortedPermutation(sorted, rows) && r == Success(Header(mrIID) + Body(sorted))
  }

  /** `execute({ projectId, mrIID })` of the failed-jobs tool. `apiUrl` and `host` are
      `GITLAB_API_URL` and `GITLAB_HOST`, and `api` is the server at the URL they resolve to. */
  method ListFailedJobs(token: Option<string>, apiUrl: Option<string>, host: Option<string>,
                        api: GitLabApi, projectId: int, mrIID: int)
    returns (r: Result<string, Error>, ghost sorted: seq<FailedJobRow>)
    ensures IsReport(token, api, projectId, mrIID, r, sorted)
  {
    sorted := [];
    if token.None? || token.value == "" {
      return Failure(MissingToken), sorted;
    }
    var baseUrl := ResolveGitLabApiUrl(apiUrl, host);
    var mergeRequest := api.GetMergeRequest(projectId, mrIID);
    if mergeRequest.Failure? {
      return Failure(mergeRequest.error), sorted;
    }
    var header := Header(mrIID);
    var headPipeline := mergeRequest.value.headPipeline;
    if headPipeline.None? {
      return Success(header + NoHeadPipeline), sorted;
    }
    var root := PipelineRef(headPipeline.value.id, headPipeline.value.projectId.GetOr(projectId));
    assert root == Root(headPipeline.value, projectId);
    var pipelines := CollectPipelines(api, root);
    if pipelines.Failure? {
      return Failure(pipelines.error), sorted;
    }
    var failedJobs, requested := CollectFailedJobs(api, pipelines.value);
    if failedJobs.Failure? {
      return Failure(failedJobs.error), sorted;
    }
    var rows := failedJobs.value;
    if |rows| == 0 {
      return Success(header + NoFailedJobs), sorted;
    }
    var table;
    table, sorted := RenderTable(rows);
    return Success(header + table), sorted;
  }

  /** The table of `execute`: the rows sorted in place, then the table header and one
      line per row. */
  method RenderTable(rows: seq<FailedJobRow>) returns (table: string, ghost sorted: seq<FailedJobRow>)
    requires rows != []
    ensures SortedPermutation(sorted, rows)
    ensures table == Body(sorted)
  {
    var a := new FailedJobRow[|rows|](k requires 0 <= k < |rows| => rows[k]);
    assert a[..] == rows;
    SortRows(a);
    sorted := a[..];
    assert |sorted| == |rows| by {
      assert |multiset(sorted)| == |multiset(rows)|;
    }
    var tableRows := Join(TableLines(a[..]), "\n");
    return TableHeader + "\n" + tableRows, sorted;
  }

  // ---------------------------------------------------------------------------
  // The shape of the report

  /** With rows, the report body is the table header, then one line per row in the sorted
      order, as long as no name contains a line break. */
  lemma TableHasLinePerRow(sorted: seq<FailedJobRow>)
    requires sorted != []
    requires forall k :: 0 <= k < |sorted| ==> '\n' !in sorted[k].pipelineName && '\n' !in sorted[k].jobName
    ensures var lines := Split(Body(sorted), '\n');
      |lines| == |sorted| + 2
      && lines[0] == ColumnLine
      && lines[1] == RuleLine
      && forall k :: 0 <= k < |sorted| ==> lines[k + 2] == TableLine(sorted[k])
  {
    var all := BodyLines(sorted);
    BodyIsJoin(sorted);
    LinesHaveNoBreak(sorted);
    SplitJoin(all, '\n');
  }

  lemma LinesHaveNoBreak(sorted: seq<FailedJobRow>)
    requires forall k :: 0 <= k < |sorted| ==> '\n' !in sorted[k].pipelineName && '\n' !in sorted[k].jobName
    ensures forall k :: 0 <= k < |BodyLines(sorted)| ==> '\n' !in BodyLines(sorted)[k]
  {
    var all := BodyLines(sorted);
    var table := TableLines(sorted);
    HeaderHasNoBreak();
    TableLinesHaveNoBreak(sorted);
    forall k | 0 <= k < |all| ensures '\n' !in all[k] {
      if k >= 2 {
        assert all[k] == table[k - 2];
      }
    }
  }

  lemma HeaderHasNoBreak()
    ensures '\n' !in ColumnLine && '\n' !in RuleLine
  {
  }

  lemma TableLinesHaveNoBreak(sorted: seq<FailedJobRow>)
    requires forall k :: 0 <= k < |sorted| ==> '\n' !in sorted[k].pipelineName && '\n' !in sorted[k].jobName
    ensures forall k :: 0 <= k < |TableLines(sorted)| ==> '\n' !in TableLines(sorted)[k]
  {
    forall k | 0 <= k < |sorted| ensures '\n' !in TableLines(sorted)[k] {
      TableLineSingle(sorted[k]);
    }
  }

  /** The lines of `Body` for a non-empty table. */
  function BodyLines(sorted: seq<FailedJobRow>): seq<string> {
    [ColumnLine, RuleLine] + TableLines(sorted)
  }

  lemma BodyIsJoin(sorted: seq<FailedJobRow>)
    requires sorted != []
    ensures Body(sorted) == Join(BodyLines(sorted), "\n")
  {
    JoinTwoFirst(ColumnLine, RuleLine, TableLines(sorted), "\n");
  }

  lemma JoinTwoFirst(a: string, b: string, rest: seq<string>, sep: string)
    requires rest != []
    ensures Join([a, b] + rest, sep) == (a + sep + b) + sep + Join(rest, sep)
  {
    var all := [a, b] + rest;
    assert all[1..] == [b] + rest;
    assert all[1..][1..] == rest;
  }

  lemma TableLineSingle(row: FailedJobRow)
    requires '\n' !in row.pipelineName && '\n' !in row.jobName
    ensures '\n' !in TableLine(row)
  {
    EscapeKeepsNoNewline(row.pipelineName);
    EscapeKeepsNoNewline(row.jobName);
    NumberHasNoNewline(row.pipelineId);
    NumberHasNoNewline(row.jobId);
  }

  lemma {:induction false} EscapeKeepsNoNewline(s: string)
    requires '\n' !in s
    ensures '\n' !in EscapeCell(s)
  {
    if s != [] {
      assert '\n' !in s[1..] by {
        assert forall k :: 0 <= k < |s[1..]| ==> s[1..][k] == s[k + 1];
      }
      EscapeKeepsNoNewline(s[1..]);
    }
  }
}
