/** The graph of crates/context-graph: current nodes and edges, and every version known of each. */
module ContextGraph {
  import opened Wrappers
  import opened Bytes
  import opened Facts
  import opened GraphSearch
  import Keys = Ordered
  import Text

  datatype NodeType =
    | Instrument | Issuer | NewsItem | NewsCluster | Metric | Strategy | Position | Order | Fill | Event | Sector
    | Industry | Index | Etf | Currency | Commodity | Country | MacroSeries | Person | Model | Portfolio | Experiment

  datatype Node = Node(id: string, nodeType: NodeType, title: string)

  datatype GraphError = InvalidIdentity | MissingNode | ConflictingNode | InvalidInterval | InvalidProvenance

  function CheckNode(node: Node): Result<(), GraphError> {
    if Text.Blank(node.id) || Text.Blank(node.title) then Err(InvalidIdentity) else Ok(())
  }

  function CheckEdge(edge: Edge): Result<(), GraphError> {
    if Text.Blank(edge.from) || Text.Blank(edge.to) || Text.Blank(edge.relation) then Err(InvalidIdentity) else Ok(())
  }

  function CheckMetadata<T>(f: Fact<T>): Result<(), GraphError> {
    if !ValidInterval(f.valid) || !ValidInterval(f.known) then Err(InvalidInterval)
    else if Text.Blank(f.provenance.source) || Text.Blank(f.provenance.artifactId)
            || !(0.0 <= f.provenance.confidence <= 1.0) then Err(InvalidProvenance)
    else Ok(())
  }

  // Both intervals start at zero or later and do not end before they hold.
  predicate Timed<T>(f: Fact<T>) {
    && f.valid.start >= 0 && (f.valid.end.Some? ==> f.valid.start < f.valid.end.value)
    && f.known.start >= 0 && (f.known.end.Some? ==> f.known.start < f.known.end.value)
  }

  predicate Sourced<T>(f: Fact<T>) {
    && !Text.Blank(f.provenance.source) && !Text.Blank(f.provenance.artifactId)
    && 0.0 <= f.provenance.confidence <= 1.0
  }

  lemma MetadataChecks<T>(f: Fact<T>)
    ensures CheckMetadata(f) ==
              if !Timed(f) then Err(InvalidInterval) else if !Sourced(f) then Err(InvalidProvenance) else Ok(())
  {
  }

  lemma ContradictsExactly(versions: seq<Fact<Node>>, f: Fact<Node>)
    ensures Contradicts(versions, f) <==> exists v | v in versions :: SameClaim(v, f) && v.subject != f.subject
  {
  }

  // One artifact claiming two different nodes for the same times.
  predicate Contradicts(versions: seq<Fact<Node>>, f: Fact<Node>) {
    exists i | 0 <= i < |versions| ::
      && versions[i].known.start == f.known.start && versions[i].valid == f.valid
      && versions[i].provenance.artifactId == f.provenance.artifactId && versions[i].subject != f.subject
  }

  function VersionsOf<K(==), T>(facts: map<K, seq<Fact<T>>>, key: K): seq<Fact<T>> {
    if key in facts then facts[key] else []
  }

  function Legacy<T>(subject: T): Fact<T> {
    Fact(subject, Interval(0, None), Interval(0, None), Provenance("legacy", "legacy", 1.0))
  }

  // --- edges in the order of a BTreeSet ---

  predicate EdgeLess(a: Edge, b: Edge) {
    if a.from != b.from then Keys.Less(a.from, b.from)
    else if a.relation != b.relation then Keys.Less(a.relation, b.relation)
    else Keys.Less(a.to, b.to)
  }

  // First by where the edge starts, then by what it says, then by where it ends.
  lemma EdgeLessExactly(a: Edge, b: Edge)
    ensures EdgeLess(a, b) <==>
              || Keys.Less(a.from, b.from)
              || (a.from == b.from && Keys.Less(a.relation, b.relation))
              || (a.from == b.from && a.relation == b.relation && Keys.Less(a.to, b.to))
  {
    hide Keys.Less;
    Keys.Trichotomy(a.from, a.from);
    Keys.Trichotomy(a.relation, a.relation);
  }

  lemma EdgeOrder(a: Edge, b: Edge)
    ensures a == b || EdgeLess(a, b) || EdgeLess(b, a)
    ensures !EdgeLess(a, a)
  {
    Keys.Trichotomy(a.from, b.from);
    Keys.Trichotomy(a.relation, b.relation);
    Keys.Trichotomy(a.to, b.to);
    Keys.Trichotomy(a.from, a.from);
    Keys.Trichotomy(a.relation, a.relation);
    Keys.Trichotomy(a.to, a.to);
  }

  lemma EdgeTransitive(a: Edge, b: Edge, c: Edge)
    requires EdgeLess(a, b) && EdgeLess(b, c)
    ensures EdgeLess(a, c)
  {
    hide Keys.Less;
    EdgeOrder(a, b);
    if a.from != b.from && b.from != c.from {
      Keys.Transitive(a.from, b.from, c.from);
      Keys.Trichotomy(a.from, b.from);
    } else if a.from == b.from == c.from && a.relation != b.relation && b.relation != c.relation {
      Keys.Transitive(a.relation, b.relation, c.relation);
      Keys.Trichotomy(a.relation, b.relation);
    } else if a.from == b.from == c.from && a.relation == b.relation == c.relation {
      Keys.Transitive(a.to, b.to, c.to);
    }
  }

  predicate Ascending(edges: seq<Edge>) {
    forall i, j | 0 <= i < j < |edges| :: EdgeLess(edges[i], edges[j])
  }

  function InsertEdge(edges: seq<Edge>, e: Edge): (r: seq<Edge>) {
    if edges == [] then [e]
    else if edges[0] == e then edges
    else if EdgeLess(e, edges[0]) then [e] + edges
    else [edges[0]] + InsertEdge(edges[1..], e)
  }

  lemma {:induction false} InsertEdgeKeeps(edges: seq<Edge>, e: Edge)
    requires Ascending(edges)
    ensures Ascending(InsertEdge(edges, e))
    ensures forall x :: x in InsertEdge(edges, e) <==> x in edges || x == e
  {
    hide EdgeLess;
    if edges != [] && edges[0] != e {
      EdgeOrder(e, edges[0]);
      if EdgeLess(e, edges[0]) {
        forall i | 0 <= i < |edges|
          ensures EdgeLess(e, edges[i])
        {
          if i > 0 {
            EdgeTransitive(e, edges[0], edges[i]);
          }
        }
      } else {
        InsertEdgeKeeps(edges[1..], e);
        var rest := InsertEdge(edges[1..], e);
        forall i | 0 <= i < |rest|
          ensures EdgeLess(edges[0], rest[i])
        {
          assert rest[i] in rest;
        }
      }
    }
  }

  // --- edges added without a date ---

  datatype Links = Links(edges: seq<Edge>, facts: map<Edge, seq<Fact<Edge>>>)

  function Link(links: Links, edge: Edge): Links {
    Links(InsertEdge(links.edges, edge), links.facts[edge := VersionsOf(links.facts, edge) + [Legacy(edge)]])
  }

  function LinkAgain(links: Links, edge: Edge, calls: nat): Links {
    if calls == 0 then links else Link(LinkAgain(links, edge, calls - 1), edge)
  }

  lemma {:induction false} InsertEdgeAgain(edges: seq<Edge>, e: Edge)
    ensures InsertEdge(InsertEdge(edges, e), e) == InsertEdge(edges, e)
  {
    if edges != [] && edges[0] != e && !EdgeLess(e, edges[0]) {
      InsertEdgeAgain(edges[1..], e);
    }
  }

  // Adding an edge is documented to be idempotent. The set of edges is: further calls do not change it.
  // The versions are not: from time zero on, each call shows one more copy.
  lemma {:induction false} AddedAgain(links: Links, edge: Edge, calls: nat, validAt: i64, knownAt: i64)
    ensures calls > 0 ==> LinkAgain(links, edge, calls).edges == Link(links, edge).edges
    ensures forall other | other != edge ::
              VersionsOf(LinkAgain(links, edge, calls).facts, other) == VersionsOf(links.facts, other)
    ensures Count(VersionsOf(LinkAgain(links, edge, calls).facts, edge), Legacy(edge), AsOf(validAt, knownAt))
              == Count(VersionsOf(links.facts, edge), Legacy(edge), AsOf(validAt, knownAt))
                 + (if validAt >= 0 && knownAt >= 0 then calls else 0)
  {
    hide Count, InsertEdge;
    if calls > 0 {
      AddedAgain(links, edge, calls - 1, validAt, knownAt);
      InsertEdgeAgain(links.edges, edge);
      var before := LinkAgain(links, edge, calls - 1);
      CountSnoc(VersionsOf(before.facts, edge), Legacy(edge), Legacy(edge), AsOf(validAt, knownAt));
    }
  }

  // --- as-of answers ---

  function Seen<T>(versions: seq<Fact<T>>, validAt: i64, knownAt: i64): seq<Fact<T>> {
    if versions == [] then [] else
    Seen(versions[..|versions| - 1], validAt, knownAt)
      + (if Visible(versions[|versions| - 1], validAt, knownAt) then [versions[|versions| - 1]] else [])
  }

  function AllSeen<K(==), T>(keys: seq<K>, facts: map<K, seq<Fact<T>>>, validAt: i64, knownAt: i64): seq<Fact<T>>
    requires forall i | 0 <= i < |keys| :: keys[i] in facts
  {
    if keys == [] then [] else
    AllSeen(keys[..|keys| - 1], facts, validAt, knownAt) + Seen(facts[keys[|keys| - 1]], validAt, knownAt)
  }

  // Every version is filed under its own identity.
  ghost predicate Filed<K(!new), T>(facts: map<K, seq<Fact<T>>>, identity: T -> K) {
    forall key, i | key in facts && 0 <= i < |facts[key]| :: identity(facts[key][i].subject) == key
  }

  ghost predicate Lists<K(!new), T>(keys: seq<K>, facts: map<K, seq<Fact<T>>>) {
    && (forall key :: key in keys <==> key in facts)
    && forall i, j | 0 <= i < j < |keys| :: keys[i] != keys[j]
  }

  lemma VisibleAnswers<T>(f: Fact<T>, validAt: i64, knownAt: i64)
    ensures Answers(f, AsOf(validAt, knownAt)) <==> Visible(f, validAt, knownAt)
    ensures Answers(f, Retained)
  {
  }

  lemma {:induction false} SeenCounts<T>(versions: seq<Fact<T>>, content: Fact<T>, validAt: i64, knownAt: i64)
    ensures Count(Seen(versions, validAt, knownAt), content, Retained)
              == Count(versions, content, AsOf(validAt, knownAt))
  {
    hide Visible, Content, Answers;
    if versions != [] {
      var n := |versions| - 1;
      VisibleAnswers(versions[n], validAt, knownAt);
      SeenCounts(versions[..n], content, validAt, knownAt);
      CountConcat(Seen(versions[..n], validAt, knownAt), [versions[n]], content, Retained);
      assert Count([versions[n]], content, Retained) == Once(versions[n], content, Retained) by {
        CountSnoc([], versions[n], content, Retained);
        assert [] + [versions[n]] == [versions[n]];
      }
      assert Seen(versions[..n], validAt, knownAt) + [] == Seen(versions[..n], validAt, knownAt);
    }
  }

  lemma {:induction false} ForeignCounts<K, T>(versions: seq<Fact<T>>, identity: T -> K, key: K, content: Fact<T>,
                                               query: Query)
    requires forall i | 0 <= i < |versions| :: identity(versions[i].subject) == key
    requires identity(content.subject) != key
    ensures Count(versions, content, query) == 0
  {
    if versions != [] {
      ForeignCounts(versions[..|versions| - 1], identity, key, content, query);
    }
  }

  // An answer holds each version that was visible, as often as the store does.
  lemma {:induction false} AllSeenCounts<K(!new), T>(keys: seq<K>, facts: map<K, seq<Fact<T>>>, identity: T -> K,
                                               content: Fact<T>, validAt: i64, knownAt: i64)
    requires Filed(facts, identity)
    requires forall i | 0 <= i < |keys| :: keys[i] in facts
    requires forall i, j | 0 <= i < j < |keys| :: keys[i] != keys[j]
    ensures Count(AllSeen(keys, facts, validAt, knownAt), content, Retained) ==
              if identity(content.subject) in keys then
                Count(facts[identity(content.subject)], content, AsOf(validAt, knownAt)) else 0
  {
    hide Count, Seen;
    if keys == [] {
      CountNothing(content, Retained);
    } else {
      var n := |keys| - 1;
      var own := identity(content.subject);
      AllSeenCounts(keys[..n], facts, identity, content, validAt, knownAt);
      CountConcat(AllSeen(keys[..n], facts, validAt, knownAt), Seen(facts[keys[n]], validAt, knownAt), content,
        Retained);
      SeenCounts(facts[keys[n]], content, validAt, knownAt);
      assert own in keys <==> own in keys[..n] || own == keys[n];
      if own != keys[n] {
        ForeignCounts(facts[keys[n]], identity, keys[n], content, AsOf(validAt, knownAt));
      } else {
        assert own !in keys[..n];
      }
    }
  }

  lemma CountNothing<T>(content: Fact<T>, query: Query)
    ensures Count([], content, query) == 0
  {
  }

  // What one more fact does to the answers of the whole graph.
  lemma AnswersAfterFact<K(!new), T>(facts: map<K, seq<Fact<T>>>, keys: seq<K>, keysAfter: seq<K>, identity: T -> K,
                           f: Fact<T>,
                               content: Fact<T>, validAt: i64, knownAt: i64)
    requires Filed(facts, identity) && Lists(keys, facts) && f !in VersionsOf(facts, identity(f.subject))
    requires Lists(keysAfter, facts[identity(f.subject) := Upsert(VersionsOf(facts, identity(f.subject)), f)])
    requires Filed(facts[identity(f.subject) := Upsert(VersionsOf(facts, identity(f.subject)), f)], identity)
    ensures var key := identity(f.subject);
            var was := VersionsOf(facts, key);
            var before := Count(AllSeen(keys, facts, validAt, knownAt), content, Retained);
            var after := Count(AllSeen(keysAfter, facts[key := Upsert(was, f)], validAt, knownAt), content, Retained);
            after ==
              if knownAt < f.known.start || identity(content.subject) != key then before
              else Count(Standing(was, f), content, AsOf(validAt, knownAt)) + Once(f, content, AsOf(validAt, knownAt))
  {
    hide Count, AllSeen, Upsert, Standing, Once;
    var key := identity(f.subject);
    var was := VersionsOf(facts, key);
    var own := identity(content.subject);
    AllSeenCounts(keys, facts, identity, content, validAt, knownAt);
    AllSeenCounts(keysAfter, facts[key := Upsert(was, f)], identity, content, validAt, knownAt);
    CountNothing(content, AsOf(validAt, knownAt));
    UpsertAnswers(was, f, content, AsOf(validAt, knownAt));
    assert own in keys <==> own in facts;
    assert own in keysAfter <==> own in facts || own == key;
  }

  lemma UpsertFiles<K, T>(versions: seq<Fact<T>>, f: Fact<T>, identity: T -> K)
    requires forall i | 0 <= i < |versions| :: identity(versions[i].subject) == identity(f.subject)
    ensures Upsert(versions, f) != []
    ensures forall i | 0 <= i < |Upsert(versions, f)| :: identity(Upsert(versions, f)[i].subject) == identity(f.subject)
  {
    hide StableSort;
    if f !in versions {
      var r := Upsert(versions, f);
      forall i | 0 <= i < |r|
        ensures identity(r[i].subject) == identity(f.subject)
      {
        assert r[i] in r;
        SortKeepsElements(CloseAll(versions, f) + [f], r[i]);
      }
    }
  }

  function NodeId(node: Node): string { node.id }

  function Itself(edge: Edge): Edge { edge }

  function Latest(versions: seq<Fact<Node>>): Node
    requires versions != []
  {
    versions[|versions| - 1].subject
  }

  // A node is shown as the version says whose knowledge starts last, and whose validity starts last among those.
  ghost predicate Shows(nodes: map<string, Node>, facts: map<string, seq<Fact<Node>>>, id: string) {
    && id in nodes && id in facts
    && exists latest | latest in facts[id] && latest.subject == nodes[id] ::
         forall v | v in facts[id] ::
           v.known.start < latest.known.start
             || (v.known.start == latest.known.start && v.valid.start <= latest.valid.start)
  }

  lemma FitIsShown(nodes: map<string, Node>, facts: map<string, seq<Fact<Node>>>, id: string)
    requires NodesFit(nodes, facts) && id in nodes
    ensures Shows(nodes, facts, id)
  {
    hide Filed, Agreeing;
    var versions := facts[id];
    var latest := versions[|versions| - 1];
    assert latest in versions && latest.subject == nodes[id];
    forall v | v in versions
      ensures v.known.start < latest.known.start
                || (v.known.start == latest.known.start && v.valid.start <= latest.valid.start)
    {
      var i :| 0 <= i < |versions| && versions[i] == v;
    }
  }

  // --- the graph ---

  // Two versions that one artifact gives for the same times.
  predicate SameClaim(a: Fact<Node>, b: Fact<Node>) {
    a.provenance.artifactId == b.provenance.artifactId && a.valid == b.valid && a.known.start == b.known.start
  }

  // No artifact says two things about one node for the same times.
  ghost predicate Agreeing(versions: seq<Fact<Node>>) {
    forall a, b | a in versions && b in versions && SameClaim(a, b) :: a.subject == b.subject
  }

  lemma UpsertAgrees(versions: seq<Fact<Node>>, f: Fact<Node>)
    requires Agreeing(versions) && f !in versions
    requires forall v | v in versions && SameClaim(v, f) :: v.subject == f.subject
    ensures Agreeing(Upsert(versions, f))
  {
    hide StableSort, Overtakes;
    var after := Upsert(versions, f);
    forall a | a in after
      ensures a == f || exists v :: v in versions && SameClaim(v, a) && v.subject == a.subject
    {
      SortKeepsElements(CloseAll(versions, f) + [f], a);
      if a != f {
        var i :| 0 <= i < |versions| && CloseAll(versions, f)[i] == a;
        assert versions[i] in versions && SameClaim(versions[i], a);
      }
    }
  }

  // A node is what the version known latest says.
  ghost predicate NodesFit(nodes: map<string, Node>, facts: map<string, seq<Fact<Node>>>) {
    && nodes.Keys == facts.Keys
    && Filed(facts, NodeId)
    && (forall id | id in facts :: Agreeing(facts[id]))
    && forall id | id in facts ::
         Ordered(facts[id]) && facts[id] != [] && nodes[id] == facts[id][|facts[id]| - 1].subject
  }

  // An edge joins two nodes and has a version.
  ghost predicate EdgesFit(edges: seq<Edge>, facts: map<Edge, seq<Fact<Edge>>>, nodes: set<string>) {
    && Ascending(edges)
    && Filed(facts, Itself)
    && (forall e :: e in edges <==> e in facts)
    && forall e | e in edges :: e.from in nodes && e.to in nodes
  }

  lemma NodeIds(nodes: map<string, Node>, facts: map<string, seq<Fact<Node>>>)
    requires NodesFit(nodes, facts)
    ensures forall id | id in nodes :: nodes[id].id == id
  {
    hide Ordered;
  }

  lemma NodeVersions(nodes: map<string, Node>, facts: map<string, seq<Fact<Node>>>, id: string)
    requires NodesFit(nodes, facts)
    ensures Ordered(VersionsOf(facts, id)) && Agreeing(VersionsOf(facts, id))
    ensures forall i | 0 <= i < |VersionsOf(facts, id)| :: NodeId(VersionsOf(facts, id)[i].subject) == id
    ensures id in facts <==> id in nodes
    ensures id in nodes <==> VersionsOf(facts, id) != []
    ensures id in nodes ==> nodes[id] == Latest(facts[id])
  {
  }

  lemma NodeFiled(nodes: map<string, Node>, facts: map<string, seq<Fact<Node>>>, id: string, versions: seq<Fact<Node>>)
    requires NodesFit(nodes, facts) && versions != [] && Ordered(versions) && Agreeing(versions)
    requires forall i | 0 <= i < |versions| :: NodeId(versions[i].subject) == id
    ensures NodesFit(nodes[id := Latest(versions)], facts[id := versions])
  {
    hide Ordered, Agreeing;
  }

  lemma EdgeFiled(edges: seq<Edge>, facts: map<Edge, seq<Fact<Edge>>>, nodes: set<string>, edge: Edge,
                  versions: seq<Fact<Edge>>)
    requires EdgesFit(edges, facts, nodes) && edge.from in nodes && edge.to in nodes
    requires forall i | 0 <= i < |versions| :: Itself(versions[i].subject) == edge
    ensures EdgesFit(InsertEdge(edges, edge), facts[edge := versions], nodes)
  {
    hide Ascending, InsertEdge;
    InsertEdgeKeeps(edges, edge);
  }

  lemma EdgeVersions(edges: seq<Edge>, facts: map<Edge, seq<Fact<Edge>>>, nodes: set<string>, edge: Edge)
    requires EdgesFit(edges, facts, nodes)
    ensures forall i | 0 <= i < |VersionsOf(facts, edge)| :: Itself(VersionsOf(facts, edge)[i].subject) == edge
  {
    hide Ascending;
  }

  lemma MoreNodes(edges: seq<Edge>, facts: map<Edge, seq<Fact<Edge>>>, nodes: map<string, Node>, id: string, node: Node)
    requires EdgesFit(edges, facts, nodes.Keys)
    ensures EdgesFit(edges, facts, nodes[id := node].Keys)
  {
  }

  class Graph {
    var nodes: map<string, Node>
    var edges: seq<Edge>
    var nodeFacts: map<string, seq<Fact<Node>>>
    var edgeFacts: map<Edge, seq<Fact<Edge>>>

    ghost predicate Valid()
      reads this
    {
      NodesFit(nodes, nodeFacts) && EdgesFit(edges, edgeFacts, nodes.Keys)
    }

    constructor ()
      ensures Valid() && nodes == map[] && edges == [] && nodeFacts == map[] && edgeFacts == map[]
    {
      nodes, edges, nodeFacts, edgeFacts := map[], [], map[], map[];
    }

    method UpsertNode(node: Node) returns (r: Result<(), GraphError>)
      requires Valid()
      modifies this`nodes, this`nodeFacts
      ensures Valid()
      ensures r == if Text.Blank(node.id) || Text.Blank(node.title) then Err(InvalidIdentity)
                   else if node.id in old(nodes) && old(nodes[node.id]) != node then Err(ConflictingNode) else Ok(())
      ensures r.Err? || node.id in old(nodes) ==> nodes == old(nodes) && nodeFacts == old(nodeFacts)
      ensures r.Ok? ==> node.id in nodes && nodes[node.id] == node
      ensures r.Ok? && node.id !in old(nodes) ==>
                nodes == old(nodes)[node.id := node] && nodeFacts == old(nodeFacts)[node.id := [Legacy(node)]]
    {
      hide NodesFit, EdgesFit;
      NodeVersions(nodes, nodeFacts, node.id);
      var checked := CheckNode(node);
      if checked.Err? {
        return checked;
      }
      if node.id in nodes {
        return if nodes[node.id] != node then Err(ConflictingNode) else Ok(());
      }
      var versions := VersionsOf(nodeFacts, node.id) + [Legacy(node)];
      NodeFiled(nodes, nodeFacts, node.id, versions);
      MoreNodes(edges, edgeFacts, nodes, node.id, node);
      assert versions == [Legacy(node)];
      nodes := nodes[node.id := node];
      nodeFacts := nodeFacts[node.id := versions];
      return Ok(());
    }

    method UpsertNodeFact(f: Fact<Node>) returns (r: Result<(), GraphError>)
      requires Valid()
      modifies this`nodes, this`nodeFacts
      ensures Valid()
      ensures r == if Text.Blank(f.subject.id) || Text.Blank(f.subject.title) then Err(InvalidIdentity)
                   else if !Timed(f) then Err(InvalidInterval)
                   else if !Sourced(f) then Err(InvalidProvenance)
                   else if f !in VersionsOf(old(nodeFacts), f.subject.id)
                           && exists v | v in VersionsOf(old(nodeFacts), f.subject.id) ::
                                SameClaim(v, f) && v.subject != f.subject then Err(ConflictingNode)
                   else Ok(())
      ensures r.Err? ==> nodes == old(nodes) && nodeFacts == old(nodeFacts)
      ensures r.Ok? ==> nodeFacts == old(nodeFacts)[f.subject.id := Upsert(VersionsOf(old(nodeFacts), f.subject.id), f)]
      ensures r.Ok? ==> Shows(nodes, nodeFacts, f.subject.id)
      ensures r.Ok? ==> nodes == old(nodes)[f.subject.id := nodes[f.subject.id]]
    {
      hide Upsert, NodesFit, EdgesFit, Contradicts, CheckMetadata, Timed, Sourced, Ordered, SameClaim, Shows,
           Text.Blank;
      MetadataChecks(f);
      var checked := CheckNode(f.subject);
      if checked.Err? {
        return checked;
      }
      checked := CheckMetadata(f);
      if checked.Err? {
        return checked;
      }
      var id := f.subject.id;
      var versions := VersionsOf(nodeFacts, id);
      NodeVersions(nodes, nodeFacts, id);
      if f in versions {
        UpsertAgain(versions, f);
        FitIsShown(nodes, nodeFacts, id);
        return Ok(());
      }
      ContradictsExactly(versions, f);
      if Contradicts(versions, f) {
        return Err(ConflictingNode);
      }
      UpsertAgrees(versions, f);
      UpsertInserts(versions, f);
      UpsertFiles(versions, f, NodeId);
      versions := AddVersion(versions, f);
      NodeFiled(nodes, nodeFacts, id, versions);
      MoreNodes(edges, edgeFacts, nodes, id, Latest(versions));
      nodeFacts := nodeFacts[id := versions];
      nodes := nodes[id := Latest(versions)];
      FitIsShown(nodes, nodeFacts, id);
      return Ok(());
    }

    method AddEdge(edge: Edge) returns (r: Result<(), GraphError>)
      requires Valid()
      modifies this`edges, this`edgeFacts
      ensures Valid()
      ensures r == if Text.Blank(edge.from) || Text.Blank(edge.to) || Text.Blank(edge.relation)
                   then Err(InvalidIdentity)
                   else if edge.from !in nodes || edge.to !in nodes then Err(MissingNode) else Ok(())
      ensures Links(edges, edgeFacts) ==
                if r.Ok? then Link(Links(old(edges), old(edgeFacts)), edge) else Links(old(edges), old(edgeFacts))
    {
      var checked := CheckEdge(edge);
      if checked.Err? {
        return checked;
      }
      if edge.from !in nodes || edge.to !in nodes {
        return Err(MissingNode);
      }
      var versions := VersionsOf(edgeFacts, edge) + [Legacy(edge)];
      EdgeFiled(edges, edgeFacts, nodes.Keys, edge, versions);
      edges := InsertEdge(edges, edge);
      edgeFacts := edgeFacts[edge := versions];
      return Ok(());
    }

    method AddEdgeFact(f: Fact<Edge>) returns (r: Result<(), GraphError>)
      requires Valid()
      modifies this`edges, this`edgeFacts
      ensures Valid()
      ensures r == if Text.Blank(f.subject.from) || Text.Blank(f.subject.to) || Text.Blank(f.subject.relation)
                   then Err(InvalidIdentity)
                   else if !Timed(f) then Err(InvalidInterval)
                   else if !Sourced(f) then Err(InvalidProvenance)
                   else if f.subject.from !in nodes || f.subject.to !in nodes then Err(MissingNode) else Ok(())
      ensures r.Err? ==> edges == old(edges) && edgeFacts == old(edgeFacts)
      ensures r.Ok? ==> edgeFacts == old(edgeFacts)[f.subject := Upsert(VersionsOf(old(edgeFacts), f.subject), f)]
    {
      hide Upsert, EdgesFit, NodesFit, CheckMetadata, Timed, Sourced, Text.Blank;
      MetadataChecks(f);
      EdgeVersions(edges, edgeFacts, nodes.Keys, f.subject);
      var checked := CheckEdge(f.subject);
      if checked.Err? {
        return checked;
      }
      checked := CheckMetadata(f);
      if checked.Err? {
        return checked;
      }
      if f.subject.from !in nodes || f.subject.to !in nodes {
        return Err(MissingNode);
      }
      var versions := VersionsOf(edgeFacts, f.subject);
      if f in versions {
        UpsertAgain(versions, f);
        return Ok(());
      }
      UpsertFiles(versions, f, Itself);
      versions := AddVersion(versions, f);
      EdgeFiled(edges, edgeFacts, nodes.Keys, f.subject, versions);
      edgeFacts := edgeFacts[f.subject := versions];
      edges := InsertEdge(edges, f.subject);
      return Ok(());
    }

    // Each visible version, as often as it is filed.
    function NodesAt(validAt: i64, knownAt: i64): (r: seq<Fact<Node>>)
      requires Valid()
      reads this
      ensures forall content ::
                Count(r, content, Retained)
                  == Count(VersionsOf(nodeFacts, content.subject.id), content, AsOf(validAt, knownAt))
    {
      NodeKeys();
      assert forall content ::
          Count(AllSeen(Keys.Sorted(nodeFacts.Keys), nodeFacts, validAt, knownAt), content, Retained)
            == Count(VersionsOf(nodeFacts, content.subject.id), content, AsOf(validAt, knownAt)) by {
        forall content {
          AllSeenCounts(Keys.Sorted(nodeFacts.Keys), nodeFacts, NodeId, content, validAt, knownAt);
        }
      }
      AllSeen(Keys.Sorted(nodeFacts.Keys), nodeFacts, validAt, knownAt)
    }

    function EdgesAt(validAt: i64, knownAt: i64): (r: seq<Fact<Edge>>)
      requires Valid()
      reads this
      ensures forall content ::
                Count(r, content, Retained)
                  == Count(VersionsOf(edgeFacts, content.subject), content, AsOf(validAt, knownAt))
    {
      EdgeKeys();
      assert forall content ::
          Count(AllSeen(edges, edgeFacts, validAt, knownAt), content, Retained)
            == Count(VersionsOf(edgeFacts, content.subject), content, AsOf(validAt, knownAt)) by {
        forall content {
          AllSeenCounts(edges, edgeFacts, Itself, content, validAt, knownAt);
        }
      }
      AllSeen(edges, edgeFacts, validAt, knownAt)
    }

    lemma NodeKeys()
      requires Valid()
      ensures Lists(Keys.Sorted(nodeFacts.Keys), nodeFacts)
    {
      Keys.AscendingIsDistinct(Keys.Sorted(nodeFacts.Keys));
    }

    lemma EdgeKeys()
      requires Valid()
      ensures Lists(edges, edgeFacts)
    {
      forall i, j | 0 <= i < j < |edges|
        ensures edges[i] != edges[j]
      {
        EdgeOrder(edges[i], edges[i]);
      }
    }

    method NeighborhoodOf(root: string, maxDepth: nat) returns (r: seq<Node>)
      requires Valid()
      ensures root !in nodes ==> r == []
      ensures root in nodes ==>
                && Distinct(Ids(r)) && ByDistance(edges, root, Ids(r))
                && (forall id :: id in Ids(r) <==> Within(edges, root, id, maxDepth))
                && forall i | 0 <= i < |r| :: r[i].id in nodes && r[i] == nodes[r[i].id]
    {
      hide Within, ByDistance, Distinct;
      if root !in nodes {
        return [];
      }
      var ids := Neighborhood(edges, root, maxDepth);
      forall i | 0 <= i < |ids|
        ensures ids[i] in nodes
      {
        assert ids[i] in ids;
        ReachedIsNode(root, ids[i], maxDepth);
      }
      NodeIds(nodes, nodeFacts);
      var known := nodes;
      r := seq(|ids|, i requires 0 <= i < |ids| && ids[i] in known => known[ids[i]]);
      assert Ids(r) == ids;
    }

    lemma ReachedIsNode(root: string, id: string, maxDepth: nat)
      requires Valid() && root in nodes && Within(edges, root, id, maxDepth)
      ensures id in nodes
    {
      var p :| Walk(edges, p, root, id);
      if |p| > 1 {
        assert Adjacent(edges, p[|p| - 2], p[|p| - 1]);
      }
    }

    method PathTo(root: string, target: string, maxDepth: nat) returns (r: Option<seq<string>>)
      requires Valid()
      ensures r.None? <==> !(root in nodes && target in nodes && Within(edges, root, target, maxDepth))
      ensures r.Some? ==>
                && Walk(edges, r.value, root, target) && Distinct(r.value) && |r.value| <= maxDepth + 1
                && forall w | Walk(edges, w, root, target) :: |r.value| <= |w|
    {
      r := PathBetween(nodes.Keys, edges, root, target, maxDepth);
    }
  }

  function Ids(nodes: seq<Node>): seq<string> { seq(|nodes|, i requires 0 <= i < |nodes| => nodes[i].id) }

  // Closes what the fact overtakes, appends it and sorts.
  method AddVersion<T(==)>(versions: seq<Fact<T>>, f: Fact<T>) returns (r: seq<Fact<T>>)
    requires f !in versions
    ensures r == Upsert(versions, f)
  {
    hide StableSort;
    r := versions;
    for i := 0 to |versions|
      invariant |r| == |versions|
      invariant forall j | 0 <= j < i :: r[j] == Close(versions[j], f)
      invariant forall j | i <= j < |versions| :: r[j] == versions[j]
    {
      if Overtakes(f, r[i]) {
        r := r[i := r[i].(known := r[i].known.(end := Some(f.known.start)))];
      }
    }
    assert r == CloseAll(versions, f);
    r := StableSort(r + [f]);
  }
}
