/** The walk of `collectPipelines`: a depth-first, pre-order traversal of the pipeline tree
    that starts at the merge request's head pipeline and follows every bridge job to its
    downstream pipeline, skipping pipelines already seen. */
module PipelineTree {
  import opened Wrappers
  import opened Strings
  import opened Errors
  import opened GitLabClient

  /** A pipeline, identified by its project and its id. */
  datatype PipelineRef = PipelineRef(id: int, projectId: int)

  /** The string `${projectId}:${id}` under which the walk records a pipeline as seen. */
  function Key(ref: PipelineRef): string {
    IntToString(ref.projectId) + ":" + IntToString(ref.id)
  }

  lemma ColonNotInNumber(n: int)
    ensures ':' !in IntToString(n)
  {
  }

  /** Distinct pipelines have distinct keys, so the string keys identify pipelines. */
  lemma KeyInjective(a: PipelineRef, b: PipelineRef)
    ensures Key(a) == Key(b) ==> a == b
  {
    if Key(a) == Key(b) {
      KeySplits(a);
      KeySplits(b);
      IntToStringInjective(a.projectId, b.projectId);
      IntToStringInjective(a.id, b.id);
    }
  }

  lemma KeySplits(r: PipelineRef)
    ensures Split(Key(r), ':') == [IntToString(r.projectId), IntToString(r.id)]
  {
    var parts := [IntToString(r.projectId), IntToString(r.id)];
    ColonNotInNumber(r.projectId);
    ColonNotInNumber(r.id);
    assert Join(parts, [':']) == Key(r);
    SplitJoin(parts, ':');
  }

  // ---------------------------------------------------------------------------
  // The bridge graph

  /** The pipeline a bridge leads to, if it has a downstream pipeline; a downstream without
      a project id belongs to the parent's project. */
  function ChildOf(bridge: BridgeJob, parent: PipelineRef): (child: Option<PipelineRef>)
    ensures child.Some? <==> bridge.downstreamPipeline.Some?
    ensures child.Some? ==> child.value.id == bridge.downstreamPipeline.value.id
    ensures child.Some? && bridge.downstreamPipeline.value.projectId.None? ==>
      child.value.projectId == parent.projectId
    ensures child.Some? && bridge.downstreamPipeline.value.projectId.Some? ==>
      child.value.projectId == bridge.downstreamPipeline.value.projectId.value
  {
    match bridge.downstreamPipeline
    case None => None
    case Some(downstream) => Some(PipelineRef(downstream.id, downstream.projectId.GetOr(parent.projectId)))
  }

  /** The bridge jobs of a pipeline, or none when the server refuses the call. */
  function Bridges(api: GitLabApi, ref: PipelineRef): seq<BridgeJob> {
    match api.GetPipelineBridges(ref.projectId, ref.id)
    case Success(bridges) => bridges
    case Failure(_) => []
  }

  /** `child` is the downstream pipeline of one of `parent`'s bridges. */
  ghost predicate IsChild(api: GitLabApi, parent: PipelineRef, child: PipelineRef) {
    exists k :: 0 <= k < |Bridges(api, parent)| && ChildOf(Bridges(api, parent)[k], parent) == Some(child)
  }

  /** The keys of every pipeline any bridge the server knows of leads to: a finite set that
      bounds the walk. */
  function ChildKeys(api: GitLabApi): set<string> {
    set key, bridge | key in api.bridges && api.bridges[key].Success? && bridge in api.bridges[key].value
                      && ChildOf(bridge, PipelineRef(key.1, key.0)).Some?
                    :: Key(ChildOf(bridge, PipelineRef(key.1, key.0)).value)
  }

  lemma ChildKeyIn(api: GitLabApi, parent: PipelineRef, k: nat)
    requires k < |Bridges(api, parent)| && ChildOf(Bridges(api, parent)[k], parent).Some?
    ensures Key(ChildOf(Bridges(api, parent)[k], parent).value) in ChildKeys(api)
  {
    var key := (parent.projectId, parent.id);
    assert key in api.bridges && api.bridges[key].Success?;
    assert PipelineRef(key.1, key.0) == parent;
    assert Bridges(api, parent)[k] in api.bridges[key].value;
  }

  // ---------------------------------------------------------------------------
  // The walk as a function

  /** The state the walk builds up: the keys seen and the pipelines in visiting order. */
  datatype Walked = Walked(visited: set<string>, pipelines: seq<PipelineRef>)

  /** `walk(ref)` from state `w`: nothing when `ref` was seen; otherwise `ref` is recorded and
      appended, then its bridges are walked in order. A refused bridges call aborts the walk. */
  function DfsFrom(api: GitLabApi, ref: PipelineRef, w: Walked): (r: Result<Walked, Error>)
    ensures r.Success? ==> w.visited + {Key(ref)} <= r.value.visited && w.pipelines <= r.value.pipelines
    decreases ChildKeys(api) + {Key(ref)} - w.visited, 0
  {
    if Key(ref) in w.visited then Success(w)
    else
      var w1 := Walked(w.visited + {Key(ref)}, w.pipelines + [ref]);
      match api.GetPipelineBridges(ref.projectId, ref.id)
      case Failure(e) => Failure(e)
      case Success(bridges) => DfsBridges(api, ref, |bridges|, w1)
  }

  /** The `for (const bridge of bridges)` loop of `walk(parent)` after its first `n` bridges. */
  function DfsBridges(api: GitLabApi, parent: PipelineRef, n: nat, w: Walked): (r: Result<Walked, Error>)
    requires n <= |Bridges(api, parent)|
    ensures r.Success? ==> w.visited <= r.value.visited && w.pipelines <= r.value.pipelines
    decreases ChildKeys(api) - w.visited, n + 1
  {
    if n == 0 then Success(w)
    else
      match DfsBridges(api, parent, n - 1, w)
      case Failure(e) => Failure(e)
      case Success(w') =>
        match ChildOf(Bridges(api, parent)[n - 1], parent)
        case None => Success(w')
        case Some(child) =>
          ChildKeyIn(api, parent, n - 1);
          DfsFrom(api, child, w')
  }

  /** A failure in the first `i` bridges is the failure of the whole loop. */
  lemma {:induction false} BridgesFailureSticks(api: GitLabApi, parent: PipelineRef, i: nat, n: nat, w: Walked)
    requires i <= n <= |Bridges(api, parent)|
    requires DfsBridges(api, parent, i, w).Failure?
    ensures DfsBridges(api, parent, n, w) == DfsBridges(api, parent, i, w)
    decreases n
  {
    if i < n {
      BridgesFailureSticks(api, parent, i, n - 1, w);
    }
  }

  /** One more turn of the bridge loop walks the bridge's child, if it has one. */
  lemma DfsBridgesStep(api: GitLabApi, parent: PipelineRef, i: nat, w1: Walked, w: Walked)
    requires i < |Bridges(api, parent)| && DfsBridges(api, parent, i, w1) == Success(w)
    ensures DfsBridges(api, parent, i + 1, w1)
            == match ChildOf(Bridges(api, parent)[i], parent)
               case None => Success(w)
               case Some(child) => DfsFrom(api, child, w)
  {
  }

  /** A bridge's child adds no key to what is left to record. */
  lemma MeasureShrinks(bound: set<string>, child: string, now: set<string>)
    requires child in bound
    ensures bound + {child} - now == bound - now
  {
  }

  /** Recording more keys leaves fewer to record. */
  lemma FewerLeft(bound: set<string>, before: set<string>, now: set<string>)
    requires before <= now
    ensures bound - now <= bound - before
  {
  }

  /** `collectPipelines(client, root)`: the pipelines of the tree under `root`, root first. */
  function Pipelines(api: GitLabApi, root: PipelineRef): Result<seq<PipelineRef>, Error> {
    match DfsFrom(api, root, Walked({}, []))
    case Success(w) => Success(w.pipelines)
    case Failure(e) => Failure(e)
  }

  // ---------------------------------------------------------------------------
  // What the walk keeps: consistent bookkeeping

  /** `visited` holds exactly the keys of the pipelines listed, and no key is listed twice. */
  ghost predicate Consistent(w: Walked) {
    && w.visited == (set i | 0 <= i < |w.pipelines| :: Key(w.pipelines[i]))
    && forall i, j :: 0 <= i < j < |w.pipelines| ==> Key(w.pipelines[i]) != Key(w.pipelines[j])
  }

  /** Recording and appending an unseen pipeline keeps the bookkeeping consistent. */
  lemma ConsistentAppend(w: Walked, ref: PipelineRef)
    requires Consistent(w) && Key(ref) !in w.visited
    ensures Consistent(Walked(w.visited + {Key(ref)}, w.pipelines + [ref]))
  {
    var out := w.pipelines + [ref];
    assert forall i :: 0 <= i < |w.pipelines| ==> out[i] == w.pipelines[i];
    assert out[|w.pipelines|] == ref;
    assert (set i | 0 <= i < |out| :: Key(out[i])) == (set i | 0 <= i < |w.pipelines| :: Key(w.pipelines[i])) + {Key(ref)};
  }

  lemma {:induction false} DfsFromConsistent(api: GitLabApi, ref: PipelineRef, w: Walked)
    requires Consistent(w) && DfsFrom(api, ref, w).Success?
    ensures Consistent(DfsFrom(api, ref, w).value)
    decreases ChildKeys(api) + {Key(ref)} - w.visited, 0
  {
    if Key(ref) !in w.visited {
      ConsistentAppend(w, ref);
      DfsBridgesConsistent(api, ref, |Bridges(api, ref)|, Walked(w.visited + {Key(ref)}, w.pipelines + [ref]));
    }
  }

  lemma {:induction false} DfsBridgesConsistent(api: GitLabApi, parent: PipelineRef, n: nat, w: Walked)
    requires n <= |Bridges(api, parent)|
    requires Consistent(w) && DfsBridges(api, parent, n, w).Success?
    ensures Consistent(DfsBridges(api, parent, n, w).value)
    decreases ChildKeys(api) - w.visited, n + 1
  {
    if n > 0 {
      DfsBridgesConsistent(api, parent, n - 1, w);
      var w' := DfsBridges(api, parent, n - 1, w).value;
      DfsBridgesStep(api, parent, n - 1, w, w');
      match ChildOf(Bridges(api, parent)[n - 1], parent)
      case None =>
      case Some(child) =>
        ChildKeyIn(api, parent, n - 1);
        MeasureShrinks(ChildKeys(api), Key(child), w'.visited);
        FewerLeft(ChildKeys(api), w.visited, w'.visited);
        DfsFromConsistent(api, child, w');
    }
  }

  // ---------------------------------------------------------------------------
  // Pre-order: a pipeline comes after the one whose bridge leads to it

  ghost predicate HasParentBefore(api: GitLabApi, out: seq<PipelineRef>, j: int)
    requires 0 <= j < |out|
  {
    exists i :: 0 <= i < j && IsChild(api, out[i], out[j])
  }

  lemma ParentBeforeExtends(api: GitLabApi, s: seq<PipelineRef>, t: seq<PipelineRef>, j: int)
    requires s <= t && 0 <= j < |s| && HasParentBefore(api, s, j)
    ensures HasParentBefore(api, t, j)
  {
    var i :| 0 <= i < j && IsChild(api, s[i], s[j]);
    assert t[i] == s[i] && t[j] == s[j];
  }

  lemma {:induction false} DfsFromOrder(api: GitLabApi, ref: PipelineRef, w: Walked)
    requires DfsFrom(api, ref, w).Success?
    ensures Key(ref) in w.visited ==> DfsFrom(api, ref, w).value.pipelines == w.pipelines
    ensures Key(ref) !in w.visited ==>
      |w.pipelines| < |DfsFrom(api, ref, w).value.pipelines| && DfsFrom(api, ref, w).value.pipelines[|w.pipelines|] == ref
    ensures forall j :: |w.pipelines| < j < |DfsFrom(api, ref, w).value.pipelines| ==>
      HasParentBefore(api, DfsFrom(api, ref, w).value.pipelines, j)
    decreases ChildKeys(api) + {Key(ref)} - w.visited, 0
  {
    if Key(ref) !in w.visited {
      var w1 := Walked(w.visited + {Key(ref)}, w.pipelines + [ref]);
      assert w1.pipelines[|w.pipelines|] == ref;
      DfsBridgesOrder(api, ref, |Bridges(api, ref)|, w1);
    }
  }

  lemma {:induction false} DfsBridgesOrder(api: GitLabApi, parent: PipelineRef, n: nat, w: Walked)
    requires n <= |Bridges(api, parent)|
    requires parent in w.pipelines && DfsBridges(api, parent, n, w).Success?
    ensures forall j :: |w.pipelines| <= j < |DfsBridges(api, parent, n, w).value.pipelines| ==>
      HasParentBefore(api, DfsBridges(api, parent, n, w).value.pipelines, j)
    decreases ChildKeys(api) - w.visited, n + 1
  {
    if n > 0 {
      DfsBridgesOrder(api, parent, n - 1, w);
      var w' := DfsBridges(api, parent, n - 1, w).value;
      DfsBridgesStep(api, parent, n - 1, w, w');
      match ChildOf(Bridges(api, parent)[n - 1], parent)
      case None =>
      case Some(child) =>
        ChildKeyIn(api, parent, n - 1);
        MeasureShrinks(ChildKeys(api), Key(child), w'.visited);
        FewerLeft(ChildKeys(api), w.visited, w'.visited);
        DfsFromOrder(api, child, w');
        assert IsChild(api, parent, child);
        OrderCombine(api, parent, child, w.pipelines, w'.pipelines, DfsFrom(api, child, w').value.pipelines);
    }
  }

  /** Walking a child of `parent` after `mid` keeps every pipeline listed after `before`
      behind a parent of its own. */
  lemma OrderCombine(api: GitLabApi, parent: PipelineRef, child: PipelineRef,
                     before: seq<PipelineRef>, mid: seq<PipelineRef>, out: seq<PipelineRef>)
    requires parent in before && before <= mid <= out && IsChild(api, parent, child)
    requires forall j :: |before| <= j < |mid| ==> HasParentBefore(api, mid, j)
    requires |mid| < |out| ==> out[|mid|] == child
    requires forall j :: |mid| < j < |out| ==> HasParentBefore(api, out, j)
    ensures forall j :: |before| <= j < |out| ==> HasParentBefore(api, out, j)
  {
    forall j | |before| <= j < |out|
      ensures HasParentBefore(api, out, j)
    {
      if j < |mid| {
        ParentBeforeExtends(api, mid, out, j);
      } else if j == |mid| {
        var p :| 0 <= p < |before| && before[p] == parent;
        assert out[p] == parent;
      }
    }
  }

  // ---------------------------------------------------------------------------
  // Closure: every pipeline the walk lists has all its children seen

  /** Every pipeline a bridge of `p` leads to has its key in `visited`. */
  ghost predicate ChildrenSeen(api: GitLabApi, p: PipelineRef, visited: set<string>) {
    forall k :: 0 <= k < |Bridges(api, p)| && ChildOf(Bridges(api, p)[k], p).Some? ==>
      Key(ChildOf(Bridges(api, p)[k], p).value) in visited
  }

  /** Every pipeline the first `n` bridges of `parent` lead to has its key in `visited`. */
  ghost predicate FirstBridgesSeen(api: GitLabApi, parent: PipelineRef, n: nat, visited: set<string>)
    requires n <= |Bridges(api, parent)|
  {
    forall k :: 0 <= k < n && ChildOf(Bridges(api, parent)[k], parent).Some? ==>
      Key(ChildOf(Bridges(api, parent)[k], parent).value) in visited
  }

  /** Every pipeline listed from position `start` on has all its children seen. */
  ghost predicate ClosedAfter(api: GitLabApi, w: Walked, start: nat) {
    forall j :: start <= j < |w.pipelines| ==> ChildrenSeen(api, w.pipelines[j], w.visited)
  }

  lemma {:induction false} DfsFromClosed(api: GitLabApi, ref: PipelineRef, w: Walked) returns (r: Walked)
    requires DfsFrom(api, ref, w).Success?
    ensures DfsFrom(api, ref, w) == Success(r)
    ensures ClosedAfter(api, r, |w.pipelines|)
    decreases ChildKeys(api) + {Key(ref)} - w.visited, 0
  {
    r := DfsFrom(api, ref, w).value;
    if Key(ref) !in w.visited {
      var w1 := Walked(w.visited + {Key(ref)}, w.pipelines + [ref]);
      var r1 := DfsBridgesClosed(api, ref, |Bridges(api, ref)|, w1);
      assert r == r1;
      assert r.pipelines[|w.pipelines|] == w1.pipelines[|w.pipelines|] == ref;
      assert ChildrenSeen(api, ref, r.visited);
    }
  }

  lemma {:induction false} DfsBridgesClosed(api: GitLabApi, parent: PipelineRef, n: nat, w: Walked) returns (r: Walked)
    requires n <= |Bridges(api, parent)|
    requires DfsBridges(api, parent, n, w).Success?
    ensures DfsBridges(api, parent, n, w) == Success(r)
    ensures FirstBridgesSeen(api, parent, n, r.visited)
    ensures ClosedAfter(api, r, |w.pipelines|)
    decreases ChildKeys(api) - w.visited, n + 1
  {
    r := DfsBridges(api, parent, n, w).value;
    if n > 0 {
      var w' := DfsBridgesClosed(api, parent, n - 1, w);
      DfsBridgesStep(api, parent, n - 1, w, w');
      match ChildOf(Bridges(api, parent)[n - 1], parent)
      case None =>
        ClosedCombine(api, parent, n - 1, |w.pipelines|, w', r);
      case Some(child) =>
        ChildKeyIn(api, parent, n - 1);
        MeasureShrinks(ChildKeys(api), Key(child), w'.visited);
        FewerLeft(ChildKeys(api), w.visited, w'.visited);
        var r' := DfsFromClosed(api, child, w');
        ClosedCombine(api, parent, n - 1, |w.pipelines|, w', r');
    }
  }

  /** Taking bridge `k` of `parent` from `mid` to `r` keeps the closure built so far. */
  lemma ClosedCombine(api: GitLabApi, parent: PipelineRef, k: nat, start: nat, mid: Walked, r: Walked)
    requires k < |Bridges(api, parent)|
    requires mid.visited <= r.visited && mid.pipelines <= r.pipelines
    requires FirstBridgesSeen(api, parent, k, mid.visited)
    requires ChildOf(Bridges(api, parent)[k], parent).Some? ==>
      Key(ChildOf(Bridges(api, parent)[k], parent).value) in r.visited
    requires ClosedAfter(api, mid, start) && ClosedAfter(api, r, |mid.pipelines|)
    ensures FirstBridgesSeen(api, parent, k + 1, r.visited)
    ensures ClosedAfter(api, r, start)
  {
    forall j | start <= j < |r.pipelines|
      ensures ChildrenSeen(api, r.pipelines[j], r.visited)
    {
      if j < |mid.pipelines| {
        assert r.pipelines[j] == mid.pipelines[j];
      }
    }
  }

  // ---------------------------------------------------------------------------
  // Reachability

  /** Each pipeline of `path` is a child of the one before it. */
  ghost predicate IsPath(api: GitLabApi, path: seq<PipelineRef>) {
    forall i :: 0 <= i < |path| - 1 ==> IsChild(api, path[i], path[i + 1])
  }

  /** `x` can be reached from `root` by following bridges. */
  ghost predicate Reachable(api: GitLabApi, root: PipelineRef, x: PipelineRef) {
    exists path :: IsPath(api, path) && |path| >= 1 && path[0] == root && path[|path| - 1] == x
  }

  lemma {:induction false} ListedReachable(api: GitLabApi, root: PipelineRef, out: seq<PipelineRef>, j: nat)
    requires |out| >= 1 && out[0] == root
    requires forall j :: 0 < j < |out| ==> HasParentBefore(api, out, j)
    requires j < |out|
    ensures Reachable(api, root, out[j])
    decreases j
  {
    if j == 0 {
      assert IsPath(api, [root]);
    } else {
      assert HasParentBefore(api, out, j);
      var i :| 0 <= i < j && IsChild(api, out[i], out[j]);
      ListedReachable(api, root, out, i);
      var path :| IsPath(api, path) && |path| >= 1 && path[0] == root && path[|path| - 1] == out[i];
      var longer := path + [out[j]];
      assert forall k :: 0 <= k < |path| ==> longer[k] == path[k];
      assert IsPath(api, longer);
    }
  }

  lemma {:induction false} ReachableListed(api: GitLabApi, w: Walked, path: seq<PipelineRef>)
    requires Consistent(w)
    requires ClosedAfter(api, w, 0)
    requires IsPath(api, path) && |path| >= 1 && path[0] in w.pipelines
    ensures path[|path| - 1] in w.pipelines
    decreases |path|
  {
    if |path| > 1 {
      var init := path[..|path| - 1];
      assert forall i :: 0 <= i < |init| ==> init[i] == path[i];
      assert IsPath(api, init);
      ReachableListed(api, w, init);
      var p := path[|path| - 2];
      var x := path[|path| - 1];
      assert IsChild(api, p, x);
      var k :| 0 <= k < |Bridges(api, p)| && ChildOf(Bridges(api, p)[k], p) == Some(x);
      var jp :| 0 <= jp < |w.pipelines| && w.pipelines[jp] == p;
      assert ChildrenSeen(api, w.pipelines[jp], w.visited);
      assert Key(x) in w.visited;
      var i :| 0 <= i < |w.pipelines| && Key(w.pipelines[i]) == Key(x);
      KeyInjective(w.pipelines[i], x);
    }
  }

  // ---------------------------------------------------------------------------
  // What `collectPipelines` returns

  /** No pipeline is listed twice, even when bridges form diamonds or cycles. */
  lemma PipelinesDistinct(api: GitLabApi, root: PipelineRef)
    requires Pipelines(api, root).Success?
    ensures var out := Pipelines(api, root).value;
      forall i, j :: 0 <= i < j < |out| ==> out[i] != out[j] && Key(out[i]) != Key(out[j])
  {
    DfsFromConsistent(api, root, Walked({}, []));
  }

  /** The root comes first, and every other pipeline comes after a pipeline with a bridge
      leading to it. */
  lemma PipelinesPreOrder(api: GitLabApi, root: PipelineRef)
    requires Pipelines(api, root).Success?
    ensures var out := Pipelines(api, root).value;
      && |out| >= 1 && out[0] == root
      && forall j :: 0 < j < |out| ==> HasParentBefore(api, out, j)
  {
    DfsFromOrder(api, root, Walked({}, []));
  }

  /** The pipelines listed are exactly those reachable from the root through bridges. */
  lemma PipelinesExactlyReachable(api: GitLabApi, root: PipelineRef, x: PipelineRef)
    requires Pipelines(api, root).Success?
    ensures x in Pipelines(api, root).value <==> Reachable(api, root, x)
  {
    var w := DfsFrom(api, root, Walked({}, [])).value;
    PipelinesPreOrder(api, root);
    if x in w.pipelines {
      var j :| 0 <= j < |w.pipelines| && w.pipelines[j] == x;
      ListedReachable(api, root, w.pipelines, j);
    }
    if Reachable(api, root, x) {
      var path :| IsPath(api, path) && |path| >= 1 && path[0] == root && path[|path| - 1] == x;
      DfsFromConsistent(api, root, Walked({}, []));
      var closed := DfsFromClosed(api, root, Walked({}, []));
      ReachableListed(api, w, path);
    }
  }

  // ---------------------------------------------------------------------------
  // The walk as the source writes it

  function AsResult(outcome: Outcome<Error>, w: Walked): Result<Walked, Error> {
    match outcome
    case Pass => Success(w)
    case Fail(e) => Failure(e)
  }

  /** The state shared by the nested `walk` closure: the `visited` set and the `pipelines`
      array of `collectPipelines`. */
  class PipelineCollector {
    const api: GitLabApi
    var visited: set<string>
    var pipelines: seq<PipelineRef>

    constructor (api: GitLabApi)
      ensures this.api == api && visited == {} && pipelines == []
    {
      this.api := api;
      visited := {};
      pipelines := [];
    }

    /** `walk(ref)`: its effect on `visited` and `pipelines` is that of `DfsFrom`, and a
        refused bridges call is thrown. */
    method Walk(ref: PipelineRef) returns (outcome: Outcome<Error>)
      modifies this
      ensures AsResult(outcome, Walked(visited, pipelines)) == DfsFrom(api, ref, Walked(old(visited), old(pipelines)))
      decreases ChildKeys(api) + {Key(ref)} - visited, 0
    {
      var key := Key(ref);
      if key in visited {
        return Pass;
      }
      visited := visited + {key};
      pipelines := pipelines + [ref];
      var response := api.GetPipelineBridges(ref.projectId, ref.id);
      if response.Failure? {
        return Fail(response.error);
      }
      assert response.value == Bridges(api, ref);
      outcome := WalkBridges(ref, response.value);
    }

    /** The `for (const bridge of bridges)` loop of `walk(parent)`, once `parent` is
        recorded: the bridges are taken in turn, and the first failure is thrown. */
    method WalkBridges(parent: PipelineRef, bridges: seq<BridgeJob>) returns (outcome: Outcome<Error>)
      requires bridges == Bridges(api, parent) && Key(parent) in visited
      modifies this
      ensures AsResult(outcome, Walked(visited, pipelines))
              == DfsBridges(api, parent, |bridges|, Walked(old(visited), old(pipelines)))
      decreases ChildKeys(api) - visited, 2
    {
      ghost var w1 := Walked(visited, pipelines);
      for i := 0 to |bridges|
        invariant DfsBridges(api, parent, i, w1) == Success(Walked(visited, pipelines))
        invariant old(visited) <= visited
      {
        FewerLeft(ChildKeys(api), old(visited), visited);
        outcome := WalkBridge(parent, bridges, i, w1);
        if outcome.Fail? {
          return;
        }
      }
      return Pass;
    }

    /** One turn of the bridge loop: a bridge with a downstream pipeline has that pipeline
        walked, in the project of the bridge's parent when the downstream names none. */
    method WalkBridge(parent: PipelineRef, bridges: seq<BridgeJob>, i: nat, ghost w1: Walked)
      returns (outcome: Outcome<Error>)
      requires bridges == Bridges(api, parent) && i < |bridges|
      requires DfsBridges(api, parent, i, w1) == Success(Walked(visited, pipelines))
      modifies this
      ensures outcome.Pass? ==> DfsBridges(api, parent, i + 1, w1) == Success(Walked(visited, pipelines))
      ensures outcome.Fail? ==> DfsBridges(api, parent, |bridges|, w1) == Failure(outcome.error)
      decreases ChildKeys(api) - visited, 1
    {
      DfsBridgesStep(api, parent, i, w1, Walked(visited, pipelines));
      var downstream := bridges[i].downstreamPipeline;
      if downstream.None? {
        return Pass;
      }
      var child := PipelineRef(downstream.value.id, downstream.value.projectId.GetOr(parent.projectId));
      assert ChildOf(bridges[i], parent) == Some(child);
      ChildKeyIn(api, parent, i);
      MeasureShrinks(ChildKeys(api), Key(child), visited);
      outcome := Walk(child);
      if outcome.Fail? {
        BridgesFailureSticks(api, parent, i + 1, |bridges|, w1);
      }
    }
  }

  /** `collectPipelines(client, root)`. */
  method CollectPipelines(api: GitLabApi, root: PipelineRef) returns (r: Result<seq<PipelineRef>, Error>)
    ensures r == Pipelines(api, root)
  {
    var collector := new PipelineCollector(api);
    var outcome := collector.Walk(root);
    if outcome.Fail? {
      return Failure(outcome.error);
    }
    return Success(collector.pipelines);
  }
}
