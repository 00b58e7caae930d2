/** The GitLab REST client: the response shapes the tools read, a finite oracle standing
    for the server's answers to the client's calls, and the two loops of the client itself,
    the search-parameter loop of `fetch` and the page loop of `fetchPaged`. */
module GitLabClient {
  import opened Wrappers
  import opened Strings
  import opened Errors

  // ---------------------------------------------------------------------------
  // Response shapes

  datatype PipelineDetails = PipelineDetails(id: int, projectId: int, name: Option<string>, ref: Option<string>)

  datatype Job = Job(id: int, name: string, status: string)

  /** The `downstream_pipeline` object of a bridge; `project_id` may be absent. */
  datatype Downstream = Downstream(id: int, projectId: Option<int>)

  /** A bridge job; an absent and a `null` `downstream_pipeline` are both `None`. */
  datatype BridgeJob = BridgeJob(downstreamPipeline: Option<Downstream>)

  /** The `head_pipeline` of a merge request. */
  datatype PipelineSummary = PipelineSummary(id: int, projectId: Option<int>, name: Option<string>, ref: Option<string>)

  datatype DiffRefs = DiffRefs(baseSha: Option<string>, headSha: Option<string>)

  /** A merge request as the two merge-request tools read it (each reads its own fields). */
  datatype MergeRequest = MergeRequest(
    iid: int,
    title: string,
    description: Option<string>,
    sourceBranch: string,
    targetBranch: string,
    diffRefs: Option<DiffRefs>,
    headPipeline: Option<PipelineSummary>)

  // ---------------------------------------------------------------------------
  // The server as the tools see it

  /** What the server answers, within one tool invocation, to each client call, keyed by
      (project id, merge request IID) or (project id, pipeline id). A paged call's entry is
      the whole result of `fetchPaged`. A call the maps do not mention fails as a
      `404 Not Found` response would. */
  datatype GitLabApi = GitLabApi(
    mergeRequests: map<(int, int), Result<MergeRequest, Error>>,
    pipelines: map<(int, int), Result<PipelineDetails, Error>>,
    jobs: map<(int, int), Result<seq<Job>, Error>>,
    bridges: map<(int, int), Result<seq<BridgeJob>, Error>>)
  {
    function GetMergeRequest(projectId: int, mrIID: int): Result<MergeRequest, Error> {
      Lookup(mergeRequests, (projectId, mrIID))
    }

    function GetPipeline(projectId: int, pipelineId: int): Result<PipelineDetails, Error> {
      Lookup(pipelines, (projectId, pipelineId))
    }

    function GetPipelineJobs(projectId: int, pipelineId: int): Result<seq<Job>, Error> {
      Lookup(jobs, (projectId, pipelineId))
    }

    function GetPipelineBridges(projectId: int, pipelineId: int): Result<seq<BridgeJob>, Error> {
      Lookup(bridges, (projectId, pipelineId))
    }
  }

  const NotFound: Error := ApiError(404, "Not Found", "")

  function Lookup<T>(m: map<(int, int), Result<T, Error>>, key: (int, int)): Result<T, Error> {
    if key in m then m[key] else Failure(NotFound)
  }

  // ---------------------------------------------------------------------------
  // fetch

  /** A value of the `searchParams` record. */
  datatype ParamValue = Text(text: string) | Number(number: int) | Undefined

  /** `String(value)`. */
  function ParamString(v: ParamValue): string
    requires v != Undefined
  {
    match v
    case Text(t) => t
    case Number(n) => IntToString(n)
  }

  /** A GET request: the URL `${baseUrl}${path}` and its search parameters. */
  datatype Request = Request(url: string, query: map<string, string>)

  /** A JSON body, as far as the client looks at it. */
  datatype Json<T> = JsonArray(items: seq<T>) | JsonOther

  /** A response: status line, body as text and as JSON, headers keyed by lower-case name. */
  datatype Response<T> = Response(status: int, statusText: string, text: string, json: Json<T>, headers: map<string, string>)
  {
    /** `response.ok` */
    predicate Ok() {
      200 <= status <= 299
    }
  }

  /** The search parameters `fetch` sets, entry by entry: `undefined` values are skipped and
      `set` replaces an earlier value of the same key. */
  function QueryOf(params: seq<(string, ParamValue)>): map<string, string>
  {
    if params == [] then map[]
    else
      var query := QueryOf(params[..|params| - 1]);
      var (key, value) := params[|params| - 1];
      if value == Undefined then query else query[key := ParamString(value)]
  }

  predicate DistinctKeys(params: seq<(string, ParamValue)>) {
    forall i, j :: 0 <= i < j < |params| ==> params[i].0 != params[j].0
  }

  /** The keys whose value is defined. */
  function DefinedKeys(params: seq<(string, ParamValue)>): set<string> {
    set i | 0 <= i < |params| && params[i].1 != Undefined :: params[i].0
  }

  /** For a record (whose keys are distinct), the query holds exactly the defined entries,
      each rendered with `String`. */
  lemma {:induction false} QueryOfRecord(params: seq<(string, ParamValue)>)
    requires DistinctKeys(params)
    ensures QueryOf(params).Keys == DefinedKeys(params)
    ensures forall i :: 0 <= i < |params| && params[i].1 != Undefined ==>
      QueryOf(params)[params[i].0] == ParamString(params[i].1)
  {
    if params != [] {
      var init := params[..|params| - 1];
      QueryOfRecord(init);
      var (key, value) := params[|params| - 1];
      assert forall i :: 0 <= i < |init| ==> init[i] == params[i] && init[i].0 != key;
      if value == Undefined {
        assert DefinedKeys(params) == DefinedKeys(init);
      } else {
        assert DefinedKeys(params) == DefinedKeys(init) + {key};
      }
    }
  }

  /** The answer the client accepts: a non-ok status becomes an error carrying the status,
      the status text and the body. */
  function Checked<T>(response: Response<T>): (r: Result<Response<T>, Error>)
    ensures r.Success? <==> response.Ok()
    ensures r.Success? ==> r.value == response
    ensures r.Failure? ==> r.error == ApiError(response.status, response.statusText, response.text)
  {
    if response.Ok() then Success(response)
    else Failure(ApiError(response.status, response.statusText, response.text))
  }

  /** `fetch(path, searchParams)`: builds the URL, sets the defined search parameters one by
      one, sends the request and rejects a non-ok response. */
  method Fetch<T>(server: Request -> Response<T>, baseUrl: string, path: string, searchParams: seq<(string, ParamValue)>)
    returns (r: Result<Response<T>, Error>, ghost request: Request)
    ensures request == Request(baseUrl + path, QueryOf(searchParams))
    ensures r == Checked(server(request))
    ensures r.Failure? <==> !server(request).Ok()
  {
    var query: map<string, string> := map[];
    for i := 0 to |searchParams|
      invariant query == QueryOf(searchParams[..i])
    {
      var (key, value) := searchParams[i];
      assert searchParams[..i + 1][..i] == searchParams[..i];
      if value != Undefined {
        query := query[key := ParamString(value)];
      }
    }
    assert searchParams[..|searchParams|] == searchParams;
    var req := Request(baseUrl + path, query);
    request := req;
    var response := server(req);
    if !response.Ok() {
      return Failure(ApiError(response.status, response.statusText, response.text)), request;
    }
    return Success(response), request;
  }

  // ---------------------------------------------------------------------------
  // fetchPaged

  const PerPage := 100

  /** `{...params, page, per_page: 100}`: the later entries override earlier ones of the same
      key, which `QueryOf` reproduces by letting the last value of a key win. */
  function PageParams(params: seq<(string, ParamValue)>, page: int): seq<(string, ParamValue)> {
    params + [("page", Number(page)), ("per_page", Number(PerPage))]
  }

  function PageRequest(baseUrl: string, path: string, params: seq<(string, ParamValue)>, page: int): Request {
    Request(baseUrl + path, QueryOf(PageParams(params, page)))
  }

  /** Every page request asks for the given page and for 100 items per page. */
  lemma PageRequestQuery(baseUrl: string, path: string, params: seq<(string, ParamValue)>, page: int)
    ensures var q := PageRequest(baseUrl, path, params, page).query;
      "page" in q && q["page"] == IntToString(page) && "per_page" in q && q["per_page"] == "100"
  {
    var all := PageParams(params, page);
    var withPage := params + [("page", Number(page))];
    assert all[..|all| - 1] == withPage && all[|all| - 1] == ("per_page", Number(PerPage));
    assert withPage[..|withPage| - 1] == params;
    assert QueryOf(withPage) == QueryOf(params)["page" := IntToString(page)];
    assert QueryOf(all) == QueryOf(withPage)["per_page" := IntToString(100)];
    assert IntToString(100) == "100" by {
      assert NatToString(100) == NatToString(10) + [DigitChar(0)];
      assert NatToString(10) == NatToString(1) + [DigitChar(0)];
    }
  }

  /** The page the `x-next-page` header announces: none when the header is absent or empty,
      or when `Number(...)` of it is 0 or NaN (`toNumber` gives `None` for NaN). */
  function NextPage(headers: map<string, string>, toNumber: string -> Option<int>): (next: Option<int>)
    ensures next.Some? ==> next.value != 0
    ensures next.Some? <==>
      "x-next-page" in headers && headers["x-next-page"] != "" &&
      toNumber(headers["x-next-page"]).Some? && toNumber(headers["x-next-page"]).value != 0
  {
    if "x-next-page" !in headers || headers["x-next-page"] == "" then None
    else
      match toNumber(headers["x-next-page"])
      case None => None
      case Some(n) => if n == 0 then None else Some(n)
  }

  /** The response to the request for `page` is an array and announces page `next`. */
  ghost predicate Continues<T>(server: Request -> Response<T>, baseUrl: string, path: string, params: seq<(string, ParamValue)>,
                               toNumber: string -> Option<int>, page: int, next: int) {
    var response := server(PageRequest(baseUrl, path, params, page));
    response.Ok() && response.json.JsonArray? && NextPage(response.headers, toNumber) == Some(next)
  }

  /** Each page of `pages` after the first is the one the response to the page before it
      announced. */
  ghost predicate PageChain<T>(server: Request -> Response<T>, baseUrl: string, path: string, params: seq<(string, ParamValue)>,
                               toNumber: string -> Option<int>, pages: seq<int>) {
    forall i :: 0 <= i < |pages| - 1 ==> Continues(server, baseUrl, path, params, toNumber, pages[i], pages[i + 1])
  }

  lemma PageChainExtends<T>(server: Request -> Response<T>, baseUrl: string, path: string, params: seq<(string, ParamValue)>,
                            toNumber: string -> Option<int>, pages: seq<int>, page: int)
    requires PageChain(server, baseUrl, path, params, toNumber, pages)
    requires pages != [] ==> Continues(server, baseUrl, path, params, toNumber, pages[|pages| - 1], page)
    ensures PageChain(server, baseUrl, path, params, toNumber, pages + [page])
  {
    var longer := pages + [page];
    forall i | 0 <= i < |longer| - 1
      ensures Continues(server, baseUrl, path, params, toNumber, longer[i], longer[i + 1])
    {
      assert longer[i] == pages[i];
      if i < |pages| - 1 {
        assert longer[i + 1] == pages[i + 1];
      }
    }
  }

  /** The response to the request for `page` ends the page loop: it is an error, not an
      array, or announces no page. */
  ghost predicate EndsChain<T>(server: Request -> Response<T>, baseUrl: string, path: string, params: seq<(string, ParamValue)>,
                               toNumber: string -> Option<int>, page: int) {
    var response := server(PageRequest(baseUrl, path, params, page));
    !response.Ok() || response.json.JsonOther? || NextPage(response.headers, toNumber).None?
  }

  /** `chunk` in front of a paging result, if there is one and it succeeded. */
  function Prepend<T>(chunk: seq<T>, rest: Option<Result<seq<T>, Error>>): Option<Result<seq<T>, Error>> {
    match rest
    case Some(Success(items)) => Some(Success(chunk + items))
    case _ => rest
  }

  /** What paging from `page` on yields, given enough fuel: the concatenation of the array
      chunks in page order, or the first error (an error drops the chunks gathered so far).
      `None` when the next-page chain is longer than `fuel` requests. */
  function PagedFrom<T>(server: Request -> Response<T>, baseUrl: string, path: string, params: seq<(string, ParamValue)>,
                        toNumber: string -> Option<int>, page: int, fuel: nat): Option<Result<seq<T>, Error>>
    decreases fuel
  {
    if fuel == 0 then None
    else
      var response := server(PageRequest(baseUrl, path, params, page));
      if !response.Ok() then Some(Failure(ApiError(response.status, response.statusText, response.text)))
      else
        match response.json
        case JsonOther => Some(Failure(NotAnArray))
        case JsonArray(chunk) =>
          match NextPage(response.headers, toNumber)
          case None => Some(Success(chunk))
          case Some(next) => Prepend(chunk, PagedFrom(server, baseUrl, path, params, toNumber, next, fuel - 1))
  }

  /** One step of `PagedFrom`, by the shape of `response`, the answer to the page's request. */
  lemma PagedFromStep<T>(server: Request -> Response<T>, baseUrl: string, path: string, params: seq<(string, ParamValue)>,
                         toNumber: string -> Option<int>, page: int, fuel: nat, response: Response<T>)
    requires fuel > 0 && response == server(PageRequest(baseUrl, path, params, page))
    ensures !response.Ok() ==> PagedFrom(server, baseUrl, path, params, toNumber, page, fuel)
                                 == Some(Failure(ApiError(response.status, response.statusText, response.text)))
    ensures response.Ok() && response.json.JsonOther? ==>
      PagedFrom(server, baseUrl, path, params, toNumber, page, fuel) == Some(Failure(NotAnArray))
    ensures response.Ok() && response.json.JsonArray? && NextPage(response.headers, toNumber).None? ==>
      PagedFrom(server, baseUrl, path, params, toNumber, page, fuel) == Some(Success(response.json.items))
    ensures response.Ok() && response.json.JsonArray? && NextPage(response.headers, toNumber).Some? ==>
      PagedFrom(server, baseUrl, path, params, toNumber, page, fuel)
        == Prepend(response.json.items,
                   PagedFrom(server, baseUrl, path, params, toNumber, NextPage(response.headers, toNumber).value, fuel - 1))
  {
  }

  lemma PrependAssoc<T>(a: seq<T>, b: seq<T>, rest: Option<Result<seq<T>, Error>>)
    ensures Prepend(a, Prepend(b, rest)) == Prepend(a + b, rest)
    ensures Prepend([], rest) == rest
  {
    match rest
    case Some(Success(items)) =>
      assert a + (b + items) == (a + b) + items;
      assert [] + items == items;
    case _ =>
  }

  /** Taking one more chunk off the rest keeps the overall result. */
  lemma PrependStep<T>(before: seq<T>, chunk: seq<T>, here: Option<Result<seq<T>, Error>>,
                       rest: Option<Result<seq<T>, Error>>, whole: Option<Result<seq<T>, Error>>)
    requires Prepend(before, here) == whole && here == Prepend(chunk, rest)
    ensures Prepend(before + chunk, rest) == whole
  {
    PrependAssoc(before, chunk, rest);
  }

  /** One turn of the `fetchPaged` loop: the request for `page`, the array check, and the
      reading of the `x-next-page` header. `next` is the page to request next, if any. When
      there is one, the chunk is what this page adds in front of the rest; otherwise the
      result is what paging from `page` yields. */
  method FetchPage<T>(server: Request -> Response<T>, baseUrl: string, path: string, params: seq<(string, ParamValue)>,
                      toNumber: string -> Option<int>, page: int, ghost fuel: nat)
    returns (r: Result<seq<T>, Error>, next: Option<int>)
    requires fuel > 0
    ensures next.Some? ==> r.Success?
    ensures next.Some? ==> Continues(server, baseUrl, path, params, toNumber, page, next.value)
    ensures next.Some? ==> PagedFrom(server, baseUrl, path, params, toNumber, page, fuel)
                           == Prepend(r.value, PagedFrom(server, baseUrl, path, params, toNumber, next.value, fuel - 1))
    ensures next.None? ==> EndsChain(server, baseUrl, path, params, toNumber, page)
    ensures next.None? ==> PagedFrom(server, baseUrl, path, params, toNumber, page, fuel) == Some(r)
  {
    var fetched, request := Fetch(server, baseUrl, path, PageParams(params, page));
    assert request == PageRequest(baseUrl, path, params, page);
    var response := server(PageRequest(baseUrl, path, params, page));
    PagedFromStep(server, baseUrl, path, params, toNumber, page, fuel, response);
    if fetched.Failure? {
      return Failure(fetched.error), None;
    }
    assert fetched.value == response;
    if response.json.JsonOther? {
      return Failure(NotAnArray), None;
    }
    r := Success(response.json.items);
    if "x-next-page" !in response.headers || response.headers["x-next-page"] == "" {
      return r, None;
    }
    var nextPageNumber := toNumber(response.headers["x-next-page"]);
    if nextPageNumber.None? || nextPageNumber.value == 0 {
      return r, None;
    }
    next := Some(nextPageNumber.value);
  }

  /** `fetchPaged(path, params)`. The source loops for as long as the server keeps announcing
      a next page; `limit` bounds the length of that chain for this model. The result is the
      reference paging result; `pages` lists the pages requested: page 1 first, each next one
      the page the previous response announced, and the last response ends the chain. */
  method FetchPaged<T>(server: Request -> Response<T>, baseUrl: string, path: string, params: seq<(string, ParamValue)>,
                       toNumber: string -> Option<int>, ghost limit: nat)
    returns (r: Result<seq<T>, Error>, ghost pages: seq<int>)
    requires PagedFrom(server, baseUrl, path, params, toNumber, 1, limit).Some?
    ensures Some(r) == PagedFrom(server, baseUrl, path, params, toNumber, 1, limit)
    ensures 1 <= |pages| <= limit && pages[0] == 1
    ensures PageChain(server, baseUrl, path, params, toNumber, pages)
    ensures EndsChain(server, baseUrl, path, params, toNumber, pages[|pages| - 1])
  {
    ghost var spec := PagedFrom(server, baseUrl, path, params, toNumber, 1, limit);
    var results: seq<T> := [];
    var page := 1;
    ghost var fuel := limit;
    pages := [];
    PrependAssoc(results, results, spec);
    while true
      invariant |pages| + fuel == limit
      invariant PagedFrom(server, baseUrl, path, params, toNumber, page, fuel).Some?
      invariant Prepend(results, PagedFrom(server, baseUrl, path, params, toNumber, page, fuel)) == spec
      invariant pages == [] ==> page == 1
      invariant pages != [] ==> pages[0] == 1
      invariant pages != [] ==> Continues(server, baseUrl, path, params, toNumber, pages[|pages| - 1], page)
      invariant PageChain(server, baseUrl, path, params, toNumber, pages)
      decreases fuel
    {
      var chunk, next := FetchPage(server, baseUrl, path, params, toNumber, page, fuel);
      PageChainExtends(server, baseUrl, path, params, toNumber, pages, page);
      pages := pages + [page];
      if next.None? {
        if chunk.Failure? {
          return Failure(chunk.error), pages;
        }
        return Success(results + chunk.value), pages;
      }
      PrependStep(results, chunk.value, PagedFrom(server, baseUrl, path, params, toNumber, page, fuel),
                  PagedFrom(server, baseUrl, path, params, toNumber, next.value, fuel - 1), spec);
      results := results + chunk.value;
      page := next.value;
      fuel := fuel - 1;
    }
  }

  // ---------------------------------------------------------------------------
  // A paged endpoint that serves a list in slices

  /** `Number(s)` on a plain decimal numeral; anything else reads as NaN here. */
  function DecimalNumber(s: string): Option<int> {
    match ParseNat(s)
    case Some(n) => Some(n)
    case None => None
  }

  function Concat<T>(slices: seq<seq<T>>): seq<T> {
    if slices == [] then [] else slices[0] + Concat(slices[1..])
  }

  /** A server that answers page `k` (1-based) with `slices[k - 1]` and announces page
      `k + 1` while there is one; any other request gets `404 Not Found`. */
  function SlicedServer<T>(slices: seq<seq<T>>): Request -> Response<T> {
    (rq: Request) => SlicedAnswer(slices, rq)
  }

  function SlicedAnswer<T>(slices: seq<seq<T>>, rq: Request): Response<T> {
    var k := if "page" in rq.query then ParseNat(rq.query["page"]) else None;
    if k.Some? && 1 <= k.value <= |slices| then
      Response(200, "OK", "", JsonArray(slices[k.value - 1]),
               if k.value < |slices| then map["x-next-page" := NatToString(k.value + 1)] else map[])
    else
      Response(404, "Not Found", "", JsonOther, map[])
  }

  /** The sliced server answers the request for page `k` with slice `k` and, unless it is
      the last one, announces page `k + 1`. */
  lemma SlicedResponse<T>(slices: seq<seq<T>>, baseUrl: string, path: string,
                          params: seq<(string, ParamValue)>, k: nat, response: Response<T>)
    requires 1 <= k <= |slices| && response == SlicedServer(slices)(PageRequest(baseUrl, path, params, k))
    ensures response.Ok() && response.json == JsonArray(slices[k - 1])
    ensures k < |slices| ==> NextPage(response.headers, DecimalNumber) == Some(k + 1)
    ensures k == |slices| ==> NextPage(response.headers, DecimalNumber) == None
  {
    PageRequestQuery(baseUrl, path, params, k);
    ParseNatToString(k);
    if k < |slices| {
      assert response.headers == map["x-next-page" := NatToString(k + 1)];
      ParseNatToString(k + 1);
    } else {
      assert response.headers == map[];
    }
  }

  /** One paging step against the sliced server. */
  lemma SlicedStep<T>(slices: seq<seq<T>>, baseUrl: string, path: string,
                      params: seq<(string, ParamValue)>, k: nat, fuel: nat)
    requires 1 <= k <= |slices| && fuel > 0
    ensures k < |slices| ==>
      PagedFrom(SlicedServer(slices), baseUrl, path, params, DecimalNumber, k, fuel)
        == Prepend(slices[k - 1], PagedFrom(SlicedServer(slices), baseUrl, path, params, DecimalNumber, k + 1, fuel - 1))
    ensures k == |slices| ==>
      PagedFrom(SlicedServer(slices), baseUrl, path, params, DecimalNumber, k, fuel) == Some(Success(slices[k - 1]))
  {
    var response := SlicedServer(slices)(PageRequest(baseUrl, path, params, k));
    SlicedResponse(slices, baseUrl, path, params, k, response);
    PagedFromStep(SlicedServer(slices), baseUrl, path, params, DecimalNumber, k, fuel, response);
    assert response.json.items == slices[k - 1];
    if k < |slices| {
      assert NextPage(response.headers, DecimalNumber).value == k + 1;
    }
  }

  lemma ConcatFrom<T>(slices: seq<seq<T>>, k: nat)
    requires 1 <= k <= |slices|
    ensures Concat(slices[k - 1..]) == slices[k - 1] + Concat(slices[k..])
  {
    assert slices[k - 1..][1..] == slices[k..];
  }

  /** Paging through a list served in slices from page `k` on, with fuel for at least the
      pages left, returns exactly the remaining slices, concatenated in order. */
  lemma {:induction false} PagedSlicesFrom<T>(slices: seq<seq<T>>, baseUrl: string, path: string,
                                              params: seq<(string, ParamValue)>, k: nat, fuel: nat)
    requires 1 <= k <= |slices| && fuel >= |slices| - k + 1
    ensures PagedFrom(SlicedServer(slices), baseUrl, path, params, DecimalNumber, k, fuel)
         == Some(Success(Concat(slices[k - 1..])))
    decreases |slices| - k
  {
    SlicedStep(slices, baseUrl, path, params, k, fuel);
    ConcatFrom(slices, k);
    if k < |slices| {
      PagedSlicesFrom(slices, baseUrl, path, params, k + 1, fuel - 1);
    } else {
      assert slices[k..] == [];
      assert Concat(slices[k..]) == [];
      assert slices[k - 1] + [] == slices[k - 1];
    }
  }

  /** A list of N slices behind a next-page chain of length N is returned whole and in
      order by `FetchPaged`, which requests exactly N pages. */
  method FetchSlices<T>(slices: seq<seq<T>>, baseUrl: string, path: string, params: seq<(string, ParamValue)>)
    returns (r: Result<seq<T>, Error>, ghost pages: seq<int>)
    requires |slices| >= 1
    ensures r == Success(Concat(slices))
    ensures |pages| == |slices|
  {
    PagedSlicesFrom(slices, baseUrl, path, params, 1, |slices|);
    assert slices[0..] == slices;
    r, pages := FetchPaged(SlicedServer(slices), baseUrl, path, params, DecimalNumber, |slices|);
    SlicedChain(slices, baseUrl, path, params, pages);
  }

  /** In the request chain over a sliced list, the i-th request is for page i + 1 and only
      the request for the last slice ends the chain. */
  lemma SlicedChain<T>(slices: seq<seq<T>>, baseUrl: string, path: string, params: seq<(string, ParamValue)>,
                       pages: seq<int>)
    requires |slices| >= 1
    requires 1 <= |pages| <= |slices| && pages[0] == 1
    requires PageChain(SlicedServer(slices), baseUrl, path, params, DecimalNumber, pages)
    requires EndsChain(SlicedServer(slices), baseUrl, path, params, DecimalNumber, pages[|pages| - 1])
    ensures |pages| == |slices|
  {
    var i := 0;
    while i < |pages| - 1
      invariant 0 <= i < |pages|
      invariant pages[i] == i + 1
    {
      SlicedResponse(slices, baseUrl, path, params, i + 1, SlicedServer(slices)(PageRequest(baseUrl, path, params, i + 1)));
      assert Continues(SlicedServer(slices), baseUrl, path, params, DecimalNumber, pages[i], pages[i + 1]);
      i := i + 1;
    }
    SlicedResponse(slices, baseUrl, path, params, |pages|, SlicedServer(slices)(PageRequest(baseUrl, path, params, |pages|)));
  }
}
