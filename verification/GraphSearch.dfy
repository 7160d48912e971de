/** The two breadth-first searches of crates/context-graph, over edges taken in both directions. */
module GraphSearch {
  import opened Wrappers

  datatype Edge = Edge(from: string, relation: string, to: string)

  // The other end of an edge, if it touches the node.
  function Across(e: Edge, node: string): Option<string> {
    if e.from == node then Some(e.to) else if e.to == node then Some(e.from) else None
  }

  ghost predicate Adjacent(edges: seq<Edge>, a: string, b: string) {
    exists e :: e in edges && ((e.from == a && e.to == b) || (e.from == b && e.to == a))
  }

  // A walk along edges; its length is |p| - 1.
  ghost predicate Walk(edges: seq<Edge>, p: seq<string>, a: string, b: string) {
    && p != [] && p[0] == a && p[|p| - 1] == b
    && forall i | 0 <= i < |p| - 1 :: Adjacent(edges, p[i], p[i + 1])
  }

  ghost predicate Within(edges: seq<Edge>, root: string, v: string, d: int) {
    exists p :: Walk(edges, p, root, v) && |p| <= d + 1
  }

  lemma WithinGrows(edges: seq<Edge>, root: string, v: string, d: int, e: int)
    requires Within(edges, root, v, d) && d <= e
    ensures Within(edges, root, v, e)
  {
  }

  lemma RootIsWithin(edges: seq<Edge>, root: string)
    ensures Within(edges, root, root, 0)
  {
    assert Walk(edges, [root], root, root);
  }

  lemma NothingIsNearer(edges: seq<Edge>, root: string, v: string, d: int)
    requires Within(edges, root, v, d)
    ensures d >= 0 && (d == 0 ==> v == root)
  {
  }

  lemma WithinStep(edges: seq<Edge>, root: string, u: string, v: string, d: int)
    requires Within(edges, root, u, d) && Adjacent(edges, u, v)
    ensures Within(edges, root, v, d + 1)
  {
    var p :| Walk(edges, p, root, u) && |p| <= d + 1;
    assert Walk(edges, p + [v], root, v);
  }

  // A node that is not the root is next to one a step nearer.
  lemma WithinBack(edges: seq<Edge>, root: string, v: string, d: int) returns (u: string)
    requires Within(edges, root, v, d + 1) && v != root
    ensures Within(edges, root, u, d) && Adjacent(edges, u, v)
  {
    var p :| Walk(edges, p, root, v) && |p| <= d + 2;
    u := p[|p| - 2];
    assert Walk(edges, p[..|p| - 1], root, u);
  }

  ghost predicate AtDistance(edges: seq<Edge>, root: string, v: string, d: int) {
    Within(edges, root, v, d) && !Within(edges, root, v, d - 1)
  }

  // --- what the search knows ---

  // Every node met is at its recorded distance, and no nearer.
  ghost predicate Measured(edges: seq<Edge>, root: string, maxDepth: nat, dist: map<string, nat>) {
    && root in dist && dist[root] == 0
    && forall v | v in dist :: dist[v] <= maxDepth && AtDistance(edges, root, v, dist[v])
  }

  // The queue holds met nodes, each once, in order of distance, over at most two distances.
  ghost predicate Queued(dist: map<string, nat>, queue: seq<(string, nat)>) {
    && (forall i | 0 <= i < |queue| :: queue[i].0 in dist && dist[queue[i].0] == queue[i].1)
    && (forall i, j | 0 <= i < j < |queue| :: queue[i].0 != queue[j].0 && queue[i].1 <= queue[j].1 <= queue[i].1 + 1)
  }

  predicate InQueue(queue: seq<(string, nat)>, v: string) {
    exists i | 0 <= i < |queue| :: queue[i].0 == v
  }

  // Every met node that has left the queue has had its neighbours met, unless it is at the limit.
  ghost predicate Explored(edges: seq<Edge>, maxDepth: nat, dist: map<string, nat>, queue: seq<(string, nat)>) {
    forall u, v | u in dist && dist[u] < maxDepth && !InQueue(queue, u) && Adjacent(edges, u, v) :: v in dist
  }

  // Everything as near as the front of the queue has been met.
  ghost predicate Complete(edges: seq<Edge>, root: string, dist: map<string, nat>, queue: seq<(string, nat)>) {
    queue != [] ==> forall v | Within(edges, root, v, queue[0].1) :: v in dist
  }

  ghost predicate Inv(edges: seq<Edge>, root: string, maxDepth: nat, dist: map<string, nat>,
                      queue: seq<(string, nat)>) {
    && Measured(edges, root, maxDepth, dist) && Queued(dist, queue)
    && Explored(edges, maxDepth, dist, queue) && Complete(edges, root, dist, queue)
  }

  lemma Starts(edges: seq<Edge>, root: string, maxDepth: nat)
    ensures Inv(edges, root, maxDepth, map[root := 0], [(root, 0)])
  {
    RootIsWithin(edges, root);
    assert InQueue([(root, 0)], root) by { assert [(root, 0)][0].0 == root; }
    forall v | Within(edges, root, v, 0)
      ensures v == root
    {
      NothingIsNearer(edges, root, v, 0);
    }
    if Within(edges, root, root, -1) {
      NothingIsNearer(edges, root, root, -1);
    }
  }

  // --- one node taken from the queue ---

  // The nodes first met from one node, in the order they were met.
  ghost predicate Met(edges: seq<Edge>, current: string, known: set<string>, found: seq<string>) {
    && (forall i, j | 0 <= i < j < |found| :: found[i] != found[j])
    && (forall i | 0 <= i < |found| :: found[i] !in known && Adjacent(edges, current, found[i]))
    && (forall v | Adjacent(edges, current, v) :: v in known || v in found)
  }

  function Entries(found: seq<string>, depth: nat): seq<(string, nat)> {
    seq(|found|, i requires 0 <= i < |found| => (found[i], depth))
  }

  ghost function Extend(dist: map<string, nat>, found: seq<string>, depth: nat): map<string, nat> {
    map v | v in dist.Keys + (set x | x in found) :: if v in dist then dist[v] else depth
  }

  lemma ExtendMeasures(edges: seq<Edge>, root: string, maxDepth: nat, dist: map<string, nat>,
                       queue: seq<(string, nat)>, found: seq<string>)
    requires Inv(edges, root, maxDepth, dist, queue) && queue != []
    requires queue[0].1 < maxDepth && Met(edges, queue[0].0, dist.Keys, found)
    ensures Measured(edges, root, maxDepth, Extend(dist, found, queue[0].1 + 1))
  {
    hide Within, Adjacent, Explored;
    var (current, depth) := queue[0];
    var after := Extend(dist, found, depth + 1);
    forall v | v in after
      ensures after[v] <= maxDepth && AtDistance(edges, root, v, after[v])
    {
      if v !in dist {
        assert v in found;
        WithinStep(edges, root, current, v, depth);
      }
    }
  }

  lemma ExtendQueues(dist: map<string, nat>, queue: seq<(string, nat)>, found: seq<string>, edges: seq<Edge>)
    requires Queued(dist, queue) && queue != [] && Met(edges, queue[0].0, dist.Keys, found)
    ensures var depth := queue[0].1 + 1;
            Queued(Extend(dist, found, depth), queue[1..] + Entries(found, depth))
  {
    hide Adjacent;
    var depth := queue[0].1 + 1;
    var after := queue[1..] + Entries(found, depth);
    forall i | 0 <= i < |after|
      ensures after[i].0 in Extend(dist, found, depth) && Extend(dist, found, depth)[after[i].0] == after[i].1
      ensures queue[0].1 <= after[i].1 <= depth
      ensures i >= |queue| - 1 ==> after[i].1 == depth && after[i].0 !in dist && after[i].0 == found[i - (|queue| - 1)]
      ensures i < |queue| - 1 ==> after[i] == queue[i + 1]
    {
      if i >= |queue| - 1 {
        assert after[i] == Entries(found, depth)[i - (|queue| - 1)];
        assert after[i].0 in found;
      }
    }
  }

  lemma NewlyQueued(queue: seq<(string, nat)>, found: seq<string>, depth: nat, u: string)
    requires queue != [] && u in found
    ensures InQueue(queue[1..] + Entries(found, depth), u)
  {
    var i :| 0 <= i < |found| && found[i] == u;
    assert (queue[1..] + Entries(found, depth))[|queue| - 1 + i].0 == u;
  }

  lemma StillQueued(queue: seq<(string, nat)>, found: seq<string>, depth: nat, u: string)
    requires queue != [] && u != queue[0].0
    ensures InQueue(queue, u) ==> InQueue(queue[1..] + Entries(found, depth), u)
  {
    if InQueue(queue, u) {
      var i :| 0 <= i < |queue| && queue[i].0 == u;
      assert (queue[1..] + Entries(found, depth))[i - 1].0 == u;
    }
  }

  lemma ExtendKeeps(dist: map<string, nat>, found: seq<string>, depth: nat)
    ensures dist.Keys <= Extend(dist, found, depth).Keys
    ensures forall v | v in dist :: Extend(dist, found, depth)[v] == dist[v]
  {
  }

  lemma ExtendExplores(edges: seq<Edge>, root: string, maxDepth: nat, dist: map<string, nat>,
                       queue: seq<(string, nat)>, found: seq<string>)
    requires Inv(edges, root, maxDepth, dist, queue) && queue != []
    requires Met(edges, queue[0].0, dist.Keys, found)
    ensures var depth := queue[0].1 + 1;
            Explored(edges, maxDepth, Extend(dist, found, depth), queue[1..] + Entries(found, depth))
  {
    hide Within, Adjacent, Measured, Queued, Complete;
    var (current, depth) := queue[0];
    var after, rest := Extend(dist, found, depth + 1), queue[1..] + Entries(found, depth + 1);
    forall u, v | u in after && after[u] < maxDepth && !InQueue(rest, u) && Adjacent(edges, u, v)
      ensures v in after
    {
      if u !in dist {
        NewlyQueued(queue, found, depth + 1, u);
      } else if u != current {
        StillQueued(queue, found, depth + 1, u);
      }
    }
  }

  lemma NotFarther(edges: seq<Edge>, root: string, u: string, e: int, d: int)
    requires AtDistance(edges, root, u, e) && Within(edges, root, u, d)
    ensures e <= d
  {
    if e > d {
      WithinGrows(edges, root, u, d, e - 1);
    }
  }

  // Once a whole distance has been explored, everything one step further has been met.
  lemma NextDistance(edges: seq<Edge>, root: string, maxDepth: nat, dist: map<string, nat>, d: nat, v: string)
    requires Measured(edges, root, maxDepth, dist)
    requires forall x | Within(edges, root, x, d) :: x in dist
    requires forall u, x | u in dist && dist[u] <= d && Adjacent(edges, u, x) :: x in dist
    requires Within(edges, root, v, d + 1)
    ensures v in dist
  {
    hide Within, Adjacent;
    if v != root {
      var u := WithinBack(edges, root, v, d);
      NotFarther(edges, root, u, dist[u], d);
    }
  }

  // Taking the front node and queueing what it is first to meet keeps everything.
  lemma StepKeeps(edges: seq<Edge>, root: string, maxDepth: nat, dist: map<string, nat>, queue: seq<(string, nat)>,
                  found: seq<string>)
    requires Inv(edges, root, maxDepth, dist, queue) && queue != []
    requires queue[0].1 < maxDepth && Met(edges, queue[0].0, dist.Keys, found)
    ensures var depth := queue[0].1 + 1;
            Inv(edges, root, maxDepth, Extend(dist, found, depth), queue[1..] + Entries(found, depth))
  {
    hide Within, Adjacent, Measured, Explored, Extend;
    ExtendKeeps(dist, found, queue[0].1 + 1);
    var (current, depth) := queue[0];
    var after, rest := Extend(dist, found, depth + 1), queue[1..] + Entries(found, depth + 1);
    ExtendMeasures(edges, root, maxDepth, dist, queue, found);
    ExtendQueues(dist, queue, found, edges);
    ExtendExplores(edges, root, maxDepth, dist, queue, found);
    CompleteAfter(edges, root, maxDepth, dist, after, depth, rest);
  }

  lemma NotQueued(dist: map<string, nat>, queue: seq<(string, nat)>, u: string)
    requires Queued(dist, queue) && queue != [] && u in dist && dist[u] < queue[0].1
    ensures !InQueue(queue, u)
  {
  }

  lemma CompleteAfter(edges: seq<Edge>, root: string, maxDepth: nat, dist: map<string, nat>, after: map<string, nat>,
                      depth: nat, rest: seq<(string, nat)>)
    requires Measured(edges, root, maxDepth, after) && Queued(after, rest) && Explored(edges, maxDepth, after, rest)
    requires forall v | Within(edges, root, v, depth) :: v in dist
    requires dist.Keys <= after.Keys && (rest != [] ==> depth <= rest[0].1 <= depth + 1)
    ensures Complete(edges, root, after, rest)
  {
    hide Within, Adjacent;
    if rest != [] && rest[0].1 == depth + 1 {
      assert rest[0].0 in after;
      forall u, x | u in after && after[u] <= depth && Adjacent(edges, u, x)
        ensures x in after
      {
        NotQueued(after, rest, u);
      }
      forall v | Within(edges, root, v, depth + 1)
        ensures v in after
      {
        NextDistance(edges, root, maxDepth, after, depth, v);
      }
    }
  }

  // A node at the limit is taken without looking further.
  lemma LimitKeeps(edges: seq<Edge>, root: string, maxDepth: nat, dist: map<string, nat>, queue: seq<(string, nat)>)
    requires Inv(edges, root, maxDepth, dist, queue) && queue != [] && queue[0].1 >= maxDepth
    ensures Inv(edges, root, maxDepth, dist, queue[1..])
  {
    hide Within, Adjacent;
    forall u, v | u in dist && dist[u] < maxDepth && !InQueue(queue[1..], u) && Adjacent(edges, u, v)
      ensures v in dist
    {
      NotQueued(dist, queue, u);
    }
  }

  // With the queue empty, every node within the limit has been met, and only those.
  lemma {:induction false} ExhaustedUpTo(edges: seq<Edge>, root: string, maxDepth: nat, dist: map<string, nat>, d: nat)
    requires Inv(edges, root, maxDepth, dist, []) && d <= maxDepth
    ensures forall v | Within(edges, root, v, d) :: v in dist
  {
    hide Within, Adjacent;
    if d == 0 {
      forall v | Within(edges, root, v, 0)
        ensures v in dist
      {
        NothingIsNearer(edges, root, v, 0);
      }
    } else {
      ExhaustedUpTo(edges, root, maxDepth, dist, d - 1);
      forall v | Within(edges, root, v, d)
        ensures v in dist
      {
        NextDistance(edges, root, maxDepth, dist, d - 1, v);
      }
    }
  }

  lemma Exhausted(edges: seq<Edge>, root: string, maxDepth: nat, dist: map<string, nat>, v: string)
    requires Inv(edges, root, maxDepth, dist, [])
    ensures v in dist <==> Within(edges, root, v, maxDepth)
  {
    ExhaustedUpTo(edges, root, maxDepth, dist, maxDepth);
    if v in dist {
      WithinGrows(edges, root, v, dist[v], maxDepth);
    }
  }

  // --- the loops ---

  // The first edge, in iteration order, that leads from one node to another; the number of edges if none does.
  function FirstTouch(edges: seq<Edge>, current: string, v: string): (k: nat)
    ensures k <= |edges| && (k < |edges| ==> Across(edges[k], current) == Some(v))
    ensures forall j | 0 <= j < k :: Across(edges[j], current) != Some(v)
  {
    if edges == [] || Across(edges[0], current) == Some(v) then 0 else 1 + FirstTouch(edges[1..], current, v)
  }

  // The inner loop of both searches: the edges that touch one node, in order; what is new is queued
  // one step further out, in the order of the edges that lead there first.
  method Expand(edges: seq<Edge>, current: string, known: set<string>) returns (found: seq<string>)
    ensures Met(edges, current, known, found)
    ensures forall i, j | 0 <= i < j < |found| ::
              FirstTouch(edges, current, found[i]) < FirstTouch(edges, current, found[j])
  {
    hide FirstTouch, Across, Adjacent;
    found := [];
    for index := 0 to |edges|
      invariant forall i | 0 <= i < |found| :: FirstTouch(edges, current, found[i]) < index
      invariant forall i, j | 0 <= i < j < |found| ::
                  FirstTouch(edges, current, found[i]) < FirstTouch(edges, current, found[j])
      invariant forall i | 0 <= i < |found| :: found[i] !in known && Adjacent(edges, current, found[i])
      invariant forall j | 0 <= j < index && Across(edges[j], current).Some? ::
                  Across(edges[j], current).value in known || Across(edges[j], current).value in found
    {
      var next := Across(edges[index], current);
      if next.Some? && next.value !in known && next.value !in found {
        assert FirstTouch(edges, current, next.value) == index;
        EdgeJoins(edges, index, current);
        found := found + [next.value];
      }
    }
    NeighboursTouch(edges, current);
  }

  lemma EdgeJoins(edges: seq<Edge>, index: nat, current: string)
    requires index < |edges| && Across(edges[index], current).Some?
    ensures Adjacent(edges, current, Across(edges[index], current).value)
  {
    assert edges[index] in edges;
  }

  lemma AcrossIsAdjacent(edges: seq<Edge>, current: string, v: string)
    requires Adjacent(edges, current, v)
    ensures exists i | 0 <= i < |edges| :: Across(edges[i], current) == Some(v)
  {
    var e :| e in edges && ((e.from == current && e.to == v) || (e.from == v && e.to == current));
    var i :| 0 <= i < |edges| && edges[i] == e;
    assert Across(edges[i], current) == Some(v);
  }

  lemma NeighboursTouch(edges: seq<Edge>, current: string)
    ensures forall v | Adjacent(edges, current, v) ::
              exists j :: 0 <= j < |edges| && Across(edges[j], current) == Some(v)
  {
    hide Across, Adjacent;
    forall v | Adjacent(edges, current, v)
      ensures exists j :: 0 <= j < |edges| && Across(edges[j], current) == Some(v)
    {
      AcrossIsAdjacent(edges, current, v);
    }
  }

  predicate Distinct(s: seq<string>) {
    forall i, j | 0 <= i < j < |s| :: s[i] != s[j]
  }

  // Nodes of a result appear no later than any node that is farther away.
  ghost predicate ByDistance(edges: seq<Edge>, root: string, s: seq<string>) {
    forall i, j, d | 0 <= i < j < |s| && Within(edges, root, s[j], d) :: Within(edges, root, s[i], d)
  }

  // What has been taken from the queue so far, in order of distance and never beyond the front.
  ghost predicate Taken(dist: map<string, nat>, queue: seq<(string, nat)>, done: seq<string>) {
    && Distinct(done)
    && (forall v :: v in done <==> v in dist && !InQueue(queue, v))
    && (forall i, j | 0 <= i < j < |done| :: dist[done[i]] <= dist[done[j]])
    && (queue != [] ==> forall i | 0 <= i < |done| :: dist[done[i]] <= queue[0].1)
  }

  lemma TakesNext(edges: seq<Edge>, dist: map<string, nat>, queue: seq<(string, nat)>, done: seq<string>,
                  found: seq<string>)
    requires Queued(dist, queue) && Taken(dist, queue, done) && queue != []
    requires forall i | 0 <= i < |found| :: found[i] !in dist
    ensures var depth := queue[0].1 + 1;
            Taken(Extend(dist, found, depth), queue[1..] + Entries(found, depth), done + [queue[0].0])
  {
    hide Extend, Entries, Queued, InQueue;
    var (current, depth) := queue[0];
    var rest := queue[1..] + Entries(found, depth + 1);
    var after := Extend(dist, found, depth + 1);
    forall v
      ensures v in done + [current] <==> v in after && !InQueue(rest, v)
    {
      TakesExactly(dist, queue, done, found, v);
    }
    ExtendKeeps(dist, found, depth + 1);
    FrontIsNearest(queue, found, dist);
    assert forall i | 0 <= i < |done| :: done[i] in done && done[i] != current;
  }

  lemma FrontIsNearest(queue: seq<(string, nat)>, found: seq<string>, dist: map<string, nat>)
    requires Queued(dist, queue) && queue != []
    ensures var rest := queue[1..] + Entries(found, queue[0].1 + 1);
            rest != [] ==> queue[0].1 <= rest[0].1
    ensures queue[0].0 in dist && dist[queue[0].0] == queue[0].1 && InQueue(queue, queue[0].0)
  {
  }

  lemma TakesExactly(dist: map<string, nat>, queue: seq<(string, nat)>, done: seq<string>, found: seq<string>,
                     v: string)
    requires Queued(dist, queue) && queue != []
    requires v in done <==> v in dist && !InQueue(queue, v)
    requires forall i | 0 <= i < |found| :: found[i] !in dist
    ensures var depth := queue[0].1 + 1;
            v in done + [queue[0].0] <==>
              v in Extend(dist, found, depth) && !InQueue(queue[1..] + Entries(found, depth), v)
  {
    var (current, depth) := queue[0];
    var rest := queue[1..] + Entries(found, depth + 1);
    if v == current {
      FrontIsGone(dist, queue, found, depth + 1);
    } else if v in found {
      NewlyQueued(queue, found, depth + 1, v);
      var i :| 0 <= i < |found| && found[i] == v;
    } else {
      StillQueued(queue, found, depth + 1, v);
      if InQueue(rest, v) {
        var i :| 0 <= i < |rest| && rest[i].0 == v;
        FromBefore(queue, found, depth + 1, i);
      }
    }
  }

  lemma FromBefore(queue: seq<(string, nat)>, found: seq<string>, depth: nat, i: nat)
    requires queue != [] && i < |queue| - 1 + |found|
    ensures var v := (queue[1..] + Entries(found, depth))[i].0; v in found || InQueue(queue, v)
  {
    if i < |queue| - 1 {
      assert queue[i + 1].0 == (queue[1..] + Entries(found, depth))[i].0;
    }
  }

  lemma FrontIsGone(dist: map<string, nat>, queue: seq<(string, nat)>, found: seq<string>, depth: nat)
    requires Queued(dist, queue) && queue != []
    requires forall i | 0 <= i < |found| :: found[i] !in dist
    ensures !InQueue(queue[1..] + Entries(found, depth), queue[0].0)
  {
    var rest := queue[1..] + Entries(found, depth);
    forall i | 0 <= i < |rest|
      ensures rest[i].0 != queue[0].0
    {
      if i < |queue| - 1 {
        assert rest[i] == queue[i + 1];
      } else {
        assert rest[i].0 == found[i - (|queue| - 1)];
      }
    }
  }

  lemma NearerByDistance(edges: seq<Edge>, root: string, maxDepth: nat, dist: map<string, nat>, u: string, v: string,
                         d: int)
    requires Measured(edges, root, maxDepth, dist) && u in dist && v in dist && dist[u] <= dist[v]
    requires Within(edges, root, v, d)
    ensures Within(edges, root, u, d)
  {
    NotFarther(edges, root, v, dist[v], d);
    WithinGrows(edges, root, u, dist[u], d);
  }

  // How many nodes the search has yet to meet, at most.
  ghost function Unmet(edges: seq<Edge>, root: string, dist: map<string, nat>): int { |All(edges, root)| - |dist| }

  ghost predicate Searching(edges: seq<Edge>, root: string, maxDepth: nat, dist: map<string, nat>,
                            queue: seq<(string, nat)>, known: set<string>) {
    Inv(edges, root, maxDepth, dist, queue) && known == dist.Keys && Unmet(edges, root, dist) >= 0
  }

  lemma SearchStarts(edges: seq<Edge>, root: string, maxDepth: nat)
    ensures Searching(edges, root, maxDepth, map[root := 0], [(root, 0)], {root})
  {
    hide Inv;
    Starts(edges, root, maxDepth);
    MetNodesAreBounded(edges, root, maxDepth, map[root := 0], [(root, 0)]);
    SubsetSize({root}, All(edges, root));
  }

  // Every node within the limit, each once, nearer ones first.
  method Neighborhood(edges: seq<Edge>, root: string, maxDepth: nat) returns (result: seq<string>)
    ensures Distinct(result)
    ensures forall v :: v in result <==> Within(edges, root, v, maxDepth)
    ensures ByDistance(edges, root, result)
  {
    hide Searching, Taken, Extend, Met, ByDistance, Distinct, Within, Entries, Unmet;
    var queue := [(root, 0)];
    var visited := {root};
    result := [];
    ghost var dist: map<string, nat> := map[root := 0];
    SearchStarts(edges, root, maxDepth);
    TakenStarts(root);
    while queue != []
      invariant Searching(edges, root, maxDepth, dist, queue, visited)
      invariant Taken(dist, queue, result)
      decreases Unmet(edges, root, dist), |queue|
    {
      var current, depth := queue[0].0, queue[0].1;
      if depth >= maxDepth {
        LimitRound(edges, root, maxDepth, dist, queue, visited);
        TakesOnly(edges, root, maxDepth, dist, queue, visited, result);
        queue := queue[1..];
      } else {
        var found := Expand(edges, current, visited);
        Round(edges, root, maxDepth, dist, queue, visited, found);
        TakesFound(edges, root, maxDepth, dist, queue, visited, result, found);
        dist := Extend(dist, found, depth + 1);
        queue := queue[1..] + Entries(found, depth + 1);
        visited := visited + set v | v in found;
      }
      result := result + [current];
    }
    Finishes(edges, root, maxDepth, dist, visited, result);
  }

  lemma LimitRound(edges: seq<Edge>, root: string, maxDepth: nat, dist: map<string, nat>, queue: seq<(string, nat)>,
                   known: set<string>)
    requires Searching(edges, root, maxDepth, dist, queue, known) && queue != [] && queue[0].1 >= maxDepth
    ensures Searching(edges, root, maxDepth, dist, queue[1..], known)
    ensures Unmet(edges, root, dist) >= 0
  {
    hide Inv;
    LimitKeeps(edges, root, maxDepth, dist, queue);
  }

  lemma NewlyMet(edges: seq<Edge>, current: string, known: set<string>, found: seq<string>)
    requires Met(edges, current, known, found)
    ensures forall i | 0 <= i < |found| :: found[i] !in known
  {
  }

  // One round of either search that looks further.
  lemma Round(edges: seq<Edge>, root: string, maxDepth: nat, dist: map<string, nat>, queue: seq<(string, nat)>,
              known: set<string>, found: seq<string>)
    requires Searching(edges, root, maxDepth, dist, queue, known) && queue != []
    requires queue[0].1 < maxDepth && Met(edges, queue[0].0, known, found)
    ensures var after, rest := Extend(dist, found, queue[0].1 + 1), queue[1..] + Entries(found, queue[0].1 + 1);
            && Searching(edges, root, maxDepth, after, rest, known + (set v | v in found))
            && 0 <= Unmet(edges, root, after) <= Unmet(edges, root, dist)
            && (Unmet(edges, root, after) == Unmet(edges, root, dist) ==> |rest| < |queue|)
  {
    hide Inv, Extend, Met, Within, All;
    NewlyMet(edges, queue[0].0, dist.Keys, found);
    StepKeeps(edges, root, maxDepth, dist, queue, found);
    MetNodesAreBounded(edges, root, maxDepth, Extend(dist, found, queue[0].1 + 1),
      queue[1..] + Entries(found, queue[0].1 + 1));
    Progress(dist, found, queue[0].1 + 1, All(edges, root));
  }

  // Every node the search could meet: the root and the ends of the edges.
  ghost function All(edges: seq<Edge>, root: string): set<string> {
    {root} + (set e | e in edges :: e.from) + (set e | e in edges :: e.to)
  }

  lemma MetNodesAreBounded(edges: seq<Edge>, root: string, maxDepth: nat, dist: map<string, nat>,
                           queue: seq<(string, nat)>)
    requires Inv(edges, root, maxDepth, dist, queue)
    ensures dist.Keys <= All(edges, root)
  {
    forall v | v in dist
      ensures v in All(edges, root)
    {
      if v != root {
        var p :| Walk(edges, p, root, v);
        assert Adjacent(edges, p[|p| - 2], p[|p| - 1]);
      }
    }
  }

  // The searches end: every round meets a new node or shortens the queue.
  lemma Progress(dist: map<string, nat>, found: seq<string>, depth: nat, bound: set<string>)
    requires forall i | 0 <= i < |found| :: found[i] !in dist
    requires Extend(dist, found, depth).Keys <= bound
    ensures Extend(dist, found, depth).Keys == dist.Keys + (set v | v in found)
    ensures |dist| <= |Extend(dist, found, depth)| <= |bound|
    ensures if found == [] then Extend(dist, found, depth) == dist else |dist| < |Extend(dist, found, depth)|
  {
    var after := Extend(dist, found, depth);
    SubsetSize(dist.Keys, after.Keys);
    SubsetSize(after.Keys, bound);
    assert |dist.Keys| == |dist| && |after.Keys| == |after|;
    if found != [] {
      assert found[0] in found && found[0] in after.Keys;
    }
  }

  lemma {:induction false} SubsetSize(a: set<string>, b: set<string>)
    requires a <= b
    ensures |a| <= |b| && (|a| == |b| ==> a == b)
  {
    if a != {} {
      var x :| x in a;
      SubsetSize(a - {x}, b - {x});
    }
  }

  lemma TakenStarts(root: string)
    ensures Taken(map[root := 0], [(root, 0)], [])
  {
    assert [(root, 0)][0].0 == root;
    assert InQueue([(root, 0)], root);
  }

  lemma TakesFound(edges: seq<Edge>, root: string, maxDepth: nat, dist: map<string, nat>, queue: seq<(string, nat)>,
                   known: set<string>, done: seq<string>, found: seq<string>)
    requires Searching(edges, root, maxDepth, dist, queue, known) && Taken(dist, queue, done) && queue != []
    requires Met(edges, queue[0].0, known, found)
    ensures var depth := queue[0].1 + 1;
            Taken(Extend(dist, found, depth), queue[1..] + Entries(found, depth), done + [queue[0].0])
  {
    hide Taken, Extend, Entries, Adjacent, Within;
    TakesNext(edges, dist, queue, done, found);
  }

  lemma TakesOnly(edges: seq<Edge>, root: string, maxDepth: nat, dist: map<string, nat>, queue: seq<(string, nat)>,
                  known: set<string>, done: seq<string>)
    requires Searching(edges, root, maxDepth, dist, queue, known) && Taken(dist, queue, done) && queue != []
    ensures Taken(dist, queue[1..], done + [queue[0].0])
  {
    hide Taken, Within, Adjacent;
    TakesNext(edges, dist, queue, done, []);
    assert Extend(dist, [], queue[0].1 + 1) == dist;
    assert queue[1..] + Entries([], queue[0].1 + 1) == queue[1..];
  }

  lemma Finishes(edges: seq<Edge>, root: string, maxDepth: nat, dist: map<string, nat>, known: set<string>,
                 result: seq<string>)
    requires Searching(edges, root, maxDepth, dist, [], known) && Taken(dist, [], result)
    ensures Distinct(result) && ByDistance(edges, root, result)
    ensures forall v :: v in result <==> Within(edges, root, v, maxDepth)
  {
    forall v
      ensures v in result <==> Within(edges, root, v, maxDepth)
    {
      Exhausted(edges, root, maxDepth, dist, v);
    }
    forall i, j, d | 0 <= i < j < |result| && Within(edges, root, result[j], d)
      ensures Within(edges, root, result[i], d)
    {
      assert result[i] in result && result[j] in result;
      NearerByDistance(edges, root, maxDepth, dist, result[i], result[j], d);
    }
  }

  // --- paths ---

  // The parent pointers lead one step nearer, up to the root.
  ghost predicate Tree(edges: seq<Edge>, root: string, dist: map<string, nat>, parents: map<string, Option<string>>) {
    && parents.Keys == dist.Keys
    && root in parents && parents[root] == None && dist[root] == 0
    && forall v | v in parents && v != root ::
         parents[v].Some? && parents[v].value in dist && dist[parents[v].value] + 1 == dist[v]
           && Adjacent(edges, parents[v].value, v)
  }

  ghost function PathTo(edges: seq<Edge>, root: string, dist: map<string, nat>, parents: map<string, Option<string>>,
                        v: string): seq<string>
    requires Tree(edges, root, dist, parents) && v in dist
    decreases dist[v]
  {
    if v == root then [root] else PathTo(edges, root, dist, parents, parents[v].value) + [v]
  }

  lemma {:induction false} PathToIsWalk(edges: seq<Edge>, root: string, dist: map<string, nat>,
                                        parents: map<string, Option<string>>, v: string)
    requires Tree(edges, root, dist, parents) && v in dist
    ensures var p := PathTo(edges, root, dist, parents, v);
            && Walk(edges, p, root, v) && |p| == dist[v] + 1
            && (forall i | 0 <= i < |p| :: p[i] in dist && dist[p[i]] == i)
            && Distinct(p)
    decreases dist[v]
  {
    hide Adjacent;
    if v != root {
      PathToIsWalk(edges, root, dist, parents, parents[v].value);
    }
  }

  function Reversed(s: seq<string>): seq<string> {
    if s == [] then [] else Reversed(s[1..]) + [s[0]]
  }

  lemma {:induction false} ReversedSnoc(s: seq<string>, x: string)
    ensures Reversed(s + [x]) == [x] + Reversed(s)
  {
    if s == [] {
      assert [] + [x] == [x];
    } else {
      assert (s + [x])[1..] == s[1..] + [x];
      ReversedSnoc(s[1..], x);
    }
  }

  // Following the parent pointers back ends, at the root.
  method Unwind(edges: seq<Edge>, root: string, ghost dist: map<string, nat>, parents: map<string, Option<string>>,
                target: string)
    returns (path: seq<string>)
    requires Tree(edges, root, dist, parents) && target in dist
    ensures path == PathTo(edges, root, dist, parents, target)
  {
    hide Adjacent, Walk;
    var cursor := Some(target);
    path := [];
    ghost var goal := PathTo(edges, root, dist, parents, target);
    while cursor.Some?
      invariant cursor.Some? ==>
                  cursor.value in dist && goal == PathTo(edges, root, dist, parents, cursor.value) + Reversed(path)
      invariant cursor.None? ==> goal == Reversed(path)
      decreases if cursor.Some? then 1 + dist[cursor.value] else 0
    {
      var node := cursor.value;
      ReversedSnoc(path, node);
      cursor := parents[node];
      path := path + [node];
    }
    path := Reversed(path);
  }

  lemma TreeGrows(edges: seq<Edge>, root: string, maxDepth: nat, dist: map<string, nat>,
                  parents: map<string, Option<string>>,
                  queue: seq<(string, nat)>, found: seq<string>)
    requires Searching(edges, root, maxDepth, dist, queue, parents.Keys) && queue != []
               && Tree(edges, root, dist, parents)
    requires Met(edges, queue[0].0, parents.Keys, found)
    ensures Tree(edges, root, Extend(dist, found, queue[0].1 + 1), Adopted(parents, found, queue[0].0))
  {
    hide Adjacent, Within;
  }

  // parents with every newly met node pointing at the node it was met from
  function Adopted(parents: map<string, Option<string>>, found: seq<string>, parent: string)
    : map<string, Option<string>>
  {
    map v | v in parents.Keys + (set x | x in found) :: if v in parents then parents[v] else Some(parent)
  }

  // A shortest path between two nodes, if one is short enough; nothing exactly if there is none.
  method PathBetween(nodes: set<string>, edges: seq<Edge>, root: string, target: string,
                     maxDepth: nat) returns (r: Option<seq<string>>)
    ensures r.None? <==> !(root in nodes && target in nodes && Within(edges, root, target, maxDepth))
    ensures r.Some? ==>
              && Walk(edges, r.value, root, target) && Distinct(r.value) && |r.value| <= maxDepth + 1
              && forall w | Walk(edges, w, root, target) :: |r.value| <= |w|
  {
    hide Searching, Extend, Met, Walk, Within, Tree, Adopted, Entries, Unmet, Distinct, InQueue, PathTo;
    if root !in nodes || target !in nodes {
      return None;
    }
    var queue := [(root, 0)];
    var parents: map<string, Option<string>> := map[root := None];
    ghost var dist: map<string, nat> := map[root := 0];
    assert parents.Keys == {root};
    SearchStarts(edges, root, maxDepth);
    TreeStarts(edges, root);
    RootIsQueued(dist, queue, root, target);
    while queue != []
      invariant Searching(edges, root, maxDepth, dist, queue, parents.Keys)
      invariant Tree(edges, root, dist, parents)
      invariant target in dist ==> InQueue(queue, target)
      decreases Unmet(edges, root, dist), |queue|
    {
      var current, depth := queue[0].0, queue[0].1;
      FrontIsMet(edges, root, maxDepth, dist, queue, parents.Keys);
      if current == target {
        var path := Unwind(edges, root, dist, parents, current);
        ShortestFound(edges, root, maxDepth, dist, queue, parents, target);
        return Some(path);
      }
      if depth >= maxDepth {
        LimitRound(edges, root, maxDepth, dist, queue, parents.Keys);
        StillWaiting(queue, [], depth + 1, target);
        NothingEntered(queue, depth + 1);
        queue := queue[1..];
      } else {
        var found := Expand(edges, current, parents.Keys);
        Round(edges, root, maxDepth, dist, queue, parents.Keys, found);
        TreeGrows(edges, root, maxDepth, dist, parents, queue, found);
        StillWaiting(queue, found, depth + 1, target);
        NewlyWaiting(dist, queue, found, depth + 1, target);
        AdoptedKeys(parents, found, current);
        dist := Extend(dist, found, depth + 1);
        parents := Adopted(parents, found, current);
        queue := queue[1..] + Entries(found, depth + 1);
      }
    }
    NothingFound(edges, root, maxDepth, dist, parents.Keys, target);
    return None;
  }

  lemma NothingEntered(queue: seq<(string, nat)>, depth: nat)
    requires queue != []
    ensures queue[1..] + Entries([], depth) == queue[1..]
  {
  }

  lemma NothingFound(edges: seq<Edge>, root: string, maxDepth: nat, dist: map<string, nat>, known: set<string>,
                     target: string)
    requires Searching(edges, root, maxDepth, dist, [], known) && (target in dist ==> InQueue([], target))
    ensures !Within(edges, root, target, maxDepth)
  {
    Exhausted(edges, root, maxDepth, dist, target);
  }

  lemma AdoptedKeys(parents: map<string, Option<string>>, found: seq<string>, parent: string)
    ensures Adopted(parents, found, parent).Keys == parents.Keys + (set v | v in found)
  {
  }

  lemma TreeStarts(edges: seq<Edge>, root: string)
    ensures Tree(edges, root, map[root := 0], map[root := None])
  {
  }

  lemma RootIsQueued(dist: map<string, nat>, queue: seq<(string, nat)>, root: string, target: string)
    requires dist == map[root := 0] && queue == [(root, 0)]
    ensures target in dist ==> InQueue(queue, target)
  {
    assert queue[0].0 == root;
  }

  lemma FrontIsMet(edges: seq<Edge>, root: string, maxDepth: nat, dist: map<string, nat>, queue: seq<(string, nat)>,
                   known: set<string>)
    requires Searching(edges, root, maxDepth, dist, queue, known) && queue != []
    ensures queue[0].0 in dist && dist[queue[0].0] == queue[0].1
  {
  }

  lemma StillWaiting(queue: seq<(string, nat)>, found: seq<string>, depth: nat, target: string)
    requires queue != [] && queue[0].0 != target
    ensures InQueue(queue, target) || target in found ==> InQueue(queue[1..] + Entries(found, depth), target)
  {
    StillQueued(queue, found, depth, target);
    if target in found {
      NewlyQueued(queue, found, depth, target);
    }
  }

  lemma NewlyWaiting(dist: map<string, nat>, queue: seq<(string, nat)>, found: seq<string>, depth: nat, target: string)
    requires queue != []
    ensures target !in dist ==> target in Extend(dist, found, depth) ==>
              InQueue(queue[1..] + Entries(found, depth), target)
  {
    if target in found {
      NewlyQueued(queue, found, depth, target);
    }
  }

  lemma ShortestFound(edges: seq<Edge>, root: string, maxDepth: nat, dist: map<string, nat>, queue: seq<(string, nat)>,
                      parents: map<string, Option<string>>, target: string)
    requires Searching(edges, root, maxDepth, dist, queue, parents.Keys) && Tree(edges, root, dist, parents)
               && target in dist
    ensures var path := PathTo(edges, root, dist, parents, target);
            && Walk(edges, path, root, target) && Distinct(path) && |path| <= maxDepth + 1
            && (forall w | Walk(edges, w, root, target) :: |path| <= |w|)
            && Within(edges, root, target, maxDepth)
  {
    PathToIsWalk(edges, root, dist, parents, target);
    WithinGrows(edges, root, target, dist[target], maxDepth);
    var path := PathTo(edges, root, dist, parents, target);
    forall w | Walk(edges, w, root, target)
      ensures |path| <= |w|
    {
      assert Within(edges, root, target, |w| - 1);
      NotFarther(edges, root, target, dist[target], |w| - 1);
    }
  }
}
