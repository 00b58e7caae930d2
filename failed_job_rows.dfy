/** The rows of the failed-jobs report: one per job whose status is exactly `"failed"`, for
    every pipeline of the tree, with the pipeline details fetched through a memoising cache. */
module FailedJobRows {
  import opened Wrappers
  import opened Strings
  import opened Errors
  import opened GitLabClient
  import opened PipelineTree

  datatype FailedJobRow = FailedJobRow(pipelineId: int, pipelineName: string, jobId: int, jobName: string)

  /** `resolvePipelineName`: `name ?? ref ?? "pipeline-" + id`. `??` only skips an absent
      value, so an empty name is kept. */
  function DisplayName(pipeline: PipelineDetails): (name: string)
    ensures pipeline.name.Some? ==> name == pipeline.name.value
    ensures pipeline.name.None? && pipeline.ref.Some? ==> name == pipeline.ref.value
    ensures pipeline.name.None? && pipeline.ref.None? ==> name == "pipeline-" + IntToString(pipeline.id)
  {
    pipeline.name.GetOr(pipeline.ref.GetOr("pipeline-" + IntToString(pipeline.id)))
  }

  /** Without a name or a ref, distinct pipelines get distinct display names. */
  lemma FallbackNamesDistinct(p: PipelineDetails, q: PipelineDetails)
    requires p.name.None? && p.ref.None? && q.name.None? && q.ref.None?
    ensures DisplayName(p) == DisplayName(q) <==> p.id == q.id
  {
    var prefix := "pipeline-";
    if DisplayName(p) == DisplayName(q) {
      assert IntToString(p.id) == DisplayName(p)[|prefix|..];
      assert IntToString(q.id) == DisplayName(q)[|prefix|..];
      IntToStringInjective(p.id, q.id);
    }
  }

  /** The row for a failed job of a pipeline: it carries the id of the fetched pipeline. */
  function MakeRow(pipeline: PipelineDetails, job: Job): (row: FailedJobRow)
    ensures row.pipelineId == pipeline.id && row.jobId == job.id
    ensures row.pipelineName == DisplayName(pipeline) && row.jobName == job.name
  {
    FailedJobRow(pipeline.id, DisplayName(pipeline), job.id, job.name)
  }

  predicate IsFailed(job: Job) {
    job.status == "failed"
  }

  /** The positions of the failed jobs, in increasing order. */
  function FailedIndices(jobs: seq<Job>): (idx: seq<nat>)
    ensures forall k :: 0 <= k < |idx| ==> idx[k] < |jobs| && IsFailed(jobs[idx[k]])
    ensures forall k, l :: 0 <= k < l < |idx| ==> idx[k] < idx[l]
    ensures forall i :: 0 <= i < |jobs| && IsFailed(jobs[i]) ==> i in idx
  {
    if jobs == [] then []
    else
      var idx := FailedIndices(jobs[..|jobs| - 1]);
      if IsFailed(jobs[|jobs| - 1]) then idx + [|jobs| - 1] else idx
  }

  /** The rows the inner loop of `collectFailedJobs` pushes for one pipeline. */
  function FailedRows(pipeline: PipelineDetails, jobs: seq<Job>): (rows: seq<FailedJobRow>)
    ensures |rows| <= |jobs|
    ensures forall k :: 0 <= k < |rows| ==> rows[k].pipelineId == pipeline.id
  {
    if jobs == [] then []
    else
      var rows := FailedRows(pipeline, jobs[..|jobs| - 1]);
      if IsFailed(jobs[|jobs| - 1]) then rows + [MakeRow(pipeline, jobs[|jobs| - 1])] else rows
  }

  /** One row per failed job, in job order: the k-th row is that of the k-th failed job. */
  lemma {:induction false} FailedRowsByIndex(pipeline: PipelineDetails, jobs: seq<Job>)
    ensures var rows := FailedRows(pipeline, jobs);
      var idx := FailedIndices(jobs);
      |rows| == |idx| && forall k :: 0 <= k < |idx| ==> rows[k] == MakeRow(pipeline, jobs[idx[k]])
  {
    if jobs != [] {
      var init := jobs[..|jobs| - 1];
      FailedRowsByIndex(pipeline, init);
      assert forall i :: 0 <= i < |init| ==> init[i] == jobs[i];
    }
  }

  /** The rows for `pipelines`, without a cache: for each pipeline in order, its details,
      then its jobs (asked of the pipeline's own project and id), then a row per failed job.
      The first refused call is the result. */
  function AggregateRows(api: GitLabApi, pipelines: seq<PipelineRef>): Result<seq<FailedJobRow>, Error>
  {
    if pipelines == [] then Success([])
    else
      match AggregateRows(api, pipelines[..|pipelines| - 1])
      case Failure(e) => Failure(e)
      case Success(rows) =>
        PipelineStep(api, pipelines[|pipelines| - 1], rows)
  }

  /** One pipeline of the loop: the rows gathered so far are kept, followed by the rows of
      the pipeline's failed jobs. */
  function PipelineStep(api: GitLabApi, ref: PipelineRef, rows: seq<FailedJobRow>): (r: Result<seq<FailedJobRow>, Error>)
    ensures r.Success? ==> rows <= r.value
    ensures r.Success? <==>
      && api.GetPipeline(ref.projectId, ref.id).Success?
      && api.GetPipelineJobs(api.GetPipeline(ref.projectId, ref.id).value.projectId,
                             api.GetPipeline(ref.projectId, ref.id).value.id).Success?
  {
    match api.GetPipeline(ref.projectId, ref.id)
    case Failure(e) => Failure(e)
    case Success(pipeline) =>
      match api.GetPipelineJobs(pipeline.projectId, pipeline.id)
      case Failure(e) => Failure(e)
      case Success(jobs) => Success(rows + FailedRows(pipeline, jobs))
  }

  /** Rows follow the order of the pipeline list: the rows for `a + b` are those for `a`
      followed by those for `b`. */
  lemma {:induction false} AggregateAppend(api: GitLabApi, a: seq<PipelineRef>, b: seq<PipelineRef>)
    requires AggregateRows(api, a).Success?
    ensures AggregateRows(api, a + b) ==
      match AggregateRows(api, b)
      case Success(rows) => Success(AggregateRows(api, a).value + rows)
      case Failure(e) => Failure(e)
  {
    if b == [] {
      assert a + b == a;
      assert AggregateRows(api, a).value + [] == AggregateRows(api, a).value;
    } else {
      var init := b[..|b| - 1];
      AggregateAppend(api, a, init);
      assert (a + b)[..|a + b| - 1] == a + init;
      assert (a + b)[|a + b| - 1] == b[|b| - 1];
      var x := AggregateRows(api, a).value;
      match AggregateRows(api, init)
      case Failure(e) =>
      case Success(y) =>
        var last := b[|b| - 1];
        match api.GetPipeline(last.projectId, last.id)
        case Failure(e) =>
        case Success(pipeline) =>
          match api.GetPipelineJobs(pipeline.projectId, pipeline.id)
          case Failure(e) =>
          case Success(jobs) =>
            assert (x + y) + FailedRows(pipeline, jobs) == x + (y + FailedRows(pipeline, jobs));
    }
  }

  /** `row` is the row of a failed job of pipeline `ref`, as the server describes both. */
  ghost predicate RowOf(api: GitLabApi, ref: PipelineRef, row: FailedJobRow) {
    match api.GetPipeline(ref.projectId, ref.id)
    case Failure(_) => false
    case Success(pipeline) =>
      match api.GetPipelineJobs(pipeline.projectId, pipeline.id)
      case Failure(_) => false
      case Success(jobs) => exists i :: 0 <= i < |jobs| && IsFailed(jobs[i]) && row == MakeRow(pipeline, jobs[i])
  }

  /** The rows pushed for one pipeline are exactly the rows of its failed jobs. */
  lemma OwnRows(api: GitLabApi, ref: PipelineRef, pipeline: PipelineDetails, jobs: seq<Job>)
    requires api.GetPipeline(ref.projectId, ref.id) == Success(pipeline)
    requires api.GetPipelineJobs(pipeline.projectId, pipeline.id) == Success(jobs)
    ensures forall row :: row in FailedRows(pipeline, jobs) <==> RowOf(api, ref, row)
  {
    var mine := FailedRows(pipeline, jobs);
    FailedRowsByIndex(pipeline, jobs);
    var idx := FailedIndices(jobs);
    forall row | row in mine ensures RowOf(api, ref, row) {
      var k :| 0 <= k < |mine| && mine[k] == row;
      assert IsFailed(jobs[idx[k]]);
    }
    forall row | RowOf(api, ref, row) ensures row in mine {
      var i :| 0 <= i < |jobs| && IsFailed(jobs[i]) && row == MakeRow(pipeline, jobs[i]);
      var k :| 0 <= k < |idx| && idx[k] == i;
      assert mine[k] == row;
    }
  }

  /** Every row is the row of a failed job of a listed pipeline, and every failed job of a
      listed pipeline has its row. */
  lemma {:induction false} RowsAreFailedJobs(api: GitLabApi, pipelines: seq<PipelineRef>)
    requires AggregateRows(api, pipelines).Success?
    ensures var rows := AggregateRows(api, pipelines).value;
      forall row :: row in rows <==> exists i :: 0 <= i < |pipelines| && RowOf(api, pipelines[i], row)
  {
    if pipelines != [] {
      var init := pipelines[..|pipelines| - 1];
      var ref := pipelines[|pipelines| - 1];
      RowsAreFailedJobs(api, init);
      var before := AggregateRows(api, init).value;
      var pipeline := api.GetPipeline(ref.projectId, ref.id).value;
      var jobs := api.GetPipelineJobs(pipeline.projectId, pipeline.id).value;
      OwnRows(api, ref, pipeline, jobs);
      assert AggregateRows(api, pipelines).value == before + FailedRows(pipeline, jobs);
      forall row
        ensures row in before + FailedRows(pipeline, jobs) <==> exists i :: 0 <= i < |pipelines| && RowOf(api, pipelines[i], row)
      {
        if exists i :: 0 <= i < |pipelines| && RowOf(api, pipelines[i], row) {
          var i :| 0 <= i < |pipelines| && RowOf(api, pipelines[i], row);
          if i < |init| {
            assert pipelines[i] == init[i];
          }
        }
        if exists i :: 0 <= i < |init| && RowOf(api, init[i], row) {
          var i :| 0 <= i < |init| && RowOf(api, init[i], row);
          assert pipelines[i] == init[i];
        }
      }
    }
  }

  // ---------------------------------------------------------------------------
  // The cache and the loop

  /** The keys of a list of pipelines. */
  ghost function KeysOf(pipelines: seq<PipelineRef>): set<string> {
    set i | 0 <= i < |pipelines| :: Key(pipelines[i])
  }

  lemma KeysOfAppend(pipelines: seq<PipelineRef>, ref: PipelineRef)
    ensures KeysOf(pipelines + [ref]) == KeysOf(pipelines) + {Key(ref)}
  {
    var all := pipelines + [ref];
    assert forall i :: 0 <= i < |pipelines| ==> all[i] == pipelines[i];
    assert all[|pipelines|] == ref;
  }

  /** The cache's entries are exactly the pipelines requested, each holding the server's
      answer for its pipeline. */
  ghost predicate CacheAgrees(api: GitLabApi, entries: map<string, PipelineDetails>, requested: seq<PipelineRef>) {
    && entries.Keys == KeysOf(requested)
    && forall i :: 0 <= i < |requested| ==>
         Key(requested[i]) in entries && api.GetPipeline(requested[i].projectId, requested[i].id) == Success(entries[Key(requested[i])])
  }

  ghost predicate KeysDistinct(pipelines: seq<PipelineRef>) {
    forall i, j :: 0 <= i < j < |pipelines| ==> Key(pipelines[i]) != Key(pipelines[j])
  }

  /** A cached entry is the server's answer for the pipeline whose key it is under. */
  lemma CachedIsAnswer(api: GitLabApi, entries: map<string, PipelineDetails>, requested: seq<PipelineRef>, ref: PipelineRef)
    requires CacheAgrees(api, entries, requested) && Key(ref) in entries
    ensures api.GetPipeline(ref.projectId, ref.id) == Success(entries[Key(ref)])
    ensures KeysOf(requested) + {Key(ref)} == KeysOf(requested)
  {
    var i :| 0 <= i < |requested| && Key(requested[i]) == Key(ref);
    KeyInjective(requested[i], ref);
  }

  /** Requesting a pipeline that is not cached keeps the requests distinct. */
  lemma RequestFresh(api: GitLabApi, entries: map<string, PipelineDetails>, requested: seq<PipelineRef>, ref: PipelineRef)
    requires CacheAgrees(api, entries, requested) && KeysDistinct(requested) && Key(ref) !in entries
    ensures KeysDistinct(requested + [ref])
    ensures KeysOf(requested + [ref]) == KeysOf(requested) + {Key(ref)}
  {
    KeysOfAppend(requested, ref);
    var all := requested + [ref];
    forall i, j | 0 <= i < j < |all| ensures Key(all[i]) != Key(all[j]) {
      assert all[i] == requested[i];
      if j == |requested| {
        assert Key(requested[i]) in KeysOf(requested);
      } else {
        assert all[j] == requested[j];
      }
    }
  }

  /** Storing the server's answer for a newly requested pipeline keeps the cache in
      agreement with the server. */
  lemma StoreAgrees(api: GitLabApi, entries: map<string, PipelineDetails>, requested: seq<PipelineRef>,
                    ref: PipelineRef, details: PipelineDetails)
    requires CacheAgrees(api, entries, requested) && Key(ref) !in entries
    requires api.GetPipeline(ref.projectId, ref.id) == Success(details)
    ensures CacheAgrees(api, entries[Key(ref) := details], requested + [ref])
  {
    KeysOfAppend(requested, ref);
    var all := requested + [ref];
    var stored := entries[Key(ref) := details];
    forall i | 0 <= i < |all|
      ensures Key(all[i]) in stored && api.GetPipeline(all[i].projectId, all[i].id) == Success(stored[Key(all[i])])
    {
      if i < |requested| {
        assert all[i] == requested[i];
        assert Key(requested[i]) in entries;
      }
    }
  }

  /** The `Map` of pipeline details keyed by `${projectId}:${pipelineId}`, together with the
      (ghost) list of details calls made to the server. */
  class DetailsCache {
    const api: GitLabApi
    var entries: map<string, PipelineDetails>
    ghost var requested: seq<PipelineRef>

    /** The entries are exactly the pipelines requested so far, each holding the server's
        answer for its pipeline. */
    ghost predicate Valid()
      reads this
    {
      CacheAgrees(api, entries, requested)
    }

    /** No pipeline's details were requested twice. */
    ghost predicate RequestsDistinct()
      reads this
    {
      KeysDistinct(requested)
    }

    constructor (api: GitLabApi)
      ensures this.api == api && entries == map[] && requested == []
      ensures Valid() && RequestsDistinct()
    {
      this.api := api;
      entries := map[];
      requested := [];
    }

    /** `getPipelineDetails(client, cache, projectId, pipelineId)`: a cached pipeline is
        returned as stored, without a call; otherwise the server is asked once and a
        successful answer is stored under the pipeline's key, leaving every other entry as
        it was. Either way the answer is the server's. */
    method GetPipelineDetails(projectId: int, pipelineId: int) returns (r: Result<PipelineDetails, Error>)
      requires Valid() && RequestsDistinct()
      modifies this
      ensures r == api.GetPipeline(projectId, pipelineId)
      ensures RequestsDistinct()
      ensures r.Success? ==> Valid()
      ensures r.Success? ==> KeysOf(requested) == KeysOf(old(requested)) + {Key(PipelineRef(pipelineId, projectId))}
      ensures var key := Key(PipelineRef(pipelineId, projectId));
        if key in old(entries) then
          r == Success(old(entries)[key]) && entries == old(entries) && requested == old(requested)
        else
          && requested == old(requested) + [PipelineRef(pipelineId, projectId)]
          && entries == if r.Success? then old(entries)[key := r.value] else old(entries)
    {
      var ref := PipelineRef(pipelineId, projectId);
      var key := Key(ref);
      if key in entries {
        CachedIsAnswer(api, entries, requested, ref);
        return Success(entries[key]);
      }
      r := api.GetPipeline(projectId, pipelineId);
      RequestFresh(api, entries, requested, ref);
      requested := requested + [ref];
      if r.Success? {
        StoreAgrees(api, entries, old(requested), ref, r.value);
        entries := entries[key := r.value];
      }
    }
  }

  /** `collectFailedJobs(client, pipelines)`: the rows are those of `AggregateRows`; the
      details of each pipeline are requested at most once, and on success exactly the
      listed pipelines' details were requested. */
  method CollectFailedJobs(api: GitLabApi, pipelines: seq<PipelineRef>)
    returns (r: Result<seq<FailedJobRow>, Error>, ghost requested: seq<PipelineRef>)
    ensures r == AggregateRows(api, pipelines)
    ensures forall i, j :: 0 <= i < j < |requested| ==> Key(requested[i]) != Key(requested[j])
    ensures r.Success? ==> KeysOf(requested) == KeysOf(pipelines)
  {
    var cache := new DetailsCache(api);
    var rows: seq<FailedJobRow> := [];
    for n := 0 to |pipelines|
      invariant AggregateRows(api, pipelines[..n]) == Success(rows)
      invariant cache.api == api && cache.Valid() && cache.RequestsDistinct()
      invariant KeysOf(cache.requested) == KeysOf(pipelines[..n])
    {
      var ref := pipelines[n];
      AggregateStep(api, pipelines, n);
      assert pipelines[..n + 1] == pipelines[..n] + [ref];
      KeysOfAppend(pipelines[..n], ref);
      var details := cache.GetPipelineDetails(ref.projectId, ref.id);
      if details.Failure? {
        BatchFailureSticks(api, pipelines, n + 1);
        return Failure(details.error), cache.requested;
      }
      var pipeline := details.value;
      var jobsResult := api.GetPipelineJobs(pipeline.projectId, pipeline.id);
      if jobsResult.Failure? {
        BatchFailureSticks(api, pipelines, n + 1);
        return Failure(jobsResult.error), cache.requested;
      }
      rows := PushFailedRows(rows, pipeline, jobsResult.value);
    }
    assert pipelines[..|pipelines|] == pipelines;
    return Success(rows), cache.requested;
  }

  /** The inner loop of `collectFailedJobs`: a row is pushed for each job whose status is
      exactly `"failed"`, in job order. */
  method PushFailedRows(rows: seq<FailedJobRow>, pipeline: PipelineDetails, jobs: seq<Job>)
    returns (pushed: seq<FailedJobRow>)
    ensures pushed == rows + FailedRows(pipeline, jobs)
  {
    pushed := rows;
    for i := 0 to |jobs|
      invariant pushed == rows + FailedRows(pipeline, jobs[..i])
    {
      assert jobs[..i + 1][..i] == jobs[..i];
      if jobs[i].status == "failed" {
        pushed := pushed + [MakeRow(pipeline, jobs[i])];
      }
    }
    assert jobs[..|jobs|] == jobs;
  }

  lemma AggregateStep(api: GitLabApi, pipelines: seq<PipelineRef>, n: nat)
    requires n < |pipelines| && AggregateRows(api, pipelines[..n]).Success?
    ensures AggregateRows(api, pipelines[..n + 1])
         == PipelineStep(api, pipelines[n], AggregateRows(api, pipelines[..n]).value)
  {
    assert pipelines[..n + 1][..n] == pipelines[..n];
  }

  /** A refused call for the n-th pipeline is the result for the whole list. */
  lemma {:induction false} BatchFailureSticks(api: GitLabApi, pipelines: seq<PipelineRef>, n: nat)
    requires 1 <= n <= |pipelines|
    requires AggregateRows(api, pipelines[..n]).Failure?
    ensures AggregateRows(api, pipelines) == AggregateRows(api, pipelines[..n])
    decreases |pipelines| - n
  {
    if n < |pipelines| {
      assert pipelines[..n + 1][..n] == pipelines[..n];
      BatchFailureSticks(api, pipelines, n + 1);
    } else {
      assert pipelines[..n] == pipelines;
    }
  }
}
