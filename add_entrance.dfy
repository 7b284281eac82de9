/**
 * The "building entrance" quest: which nodes it asks about, and how an answer changes
 * a node's tags. Its four filter expressions are kept abstract: they are parameters,
 * and nothing here depends on what they match.
 */
module BuildingEntrance {
  import opened Wrappers
  import opened OsmMapData

  /** The quest's four filters, in the roles the quest gives them. */
  datatype EntranceFilters = EntranceFilters(
    withoutEntrance: ElementMatcher,
    buildingWays: ElementMatcher,
    incomingWays: ElementMatcher,
    excludedWays: ElementMatcher)

  /** Whether node id `id` lies on some way of `ways` that `filter` accepts. */
  ghost predicate OnMatchingWay(id: int, ways: seq<Way>, filter: ElementMatcher)
  {
    exists w :: w in ways && filter(WayElement(w)) && id in w.nodeIds
  }

  /** A node the quest asks about: on a building outline, on a footway or path leading to
      it, on no tunnel or covered way, and not yet tagged as entrance, barrier or dead end. */
  ghost predicate IsCandidate(n: Node, ways: seq<Way>, f: EntranceFilters)
  {
    OnMatchingWay(n.id, ways, f.buildingWays)
    && OnMatchingWay(n.id, ways, f.incomingWays)
    && !OnMatchingWay(n.id, ways, f.excludedWays)
    && f.withoutEntrance(NodeElement(n))
  }

  /** The candidates among `nodes`, in their order. */
  ghost function Candidates(nodes: seq<Node>, ways: seq<Way>, f: EntranceFilters): seq<Node>
  {
    if nodes == [] then []
    else
      var last := nodes[|nodes| - 1];
      Candidates(nodes[..|nodes| - 1], ways, f) + (if IsCandidate(last, ways, f) then [last] else [])
  }

  /** `a` is `b` with some elements left out and the rest kept in order. */
  predicate IsSubsequence<T(==)>(a: seq<T>, b: seq<T>)
  {
    if b == [] then a == []
    else
      IsSubsequence(a, b[..|b| - 1])
      || (a != [] && a[|a| - 1] == b[|b| - 1] && IsSubsequence(a[..|a| - 1], b[..|b| - 1]))
  }

  /** A node is among the candidates exactly when it is one of `nodes` and a candidate. */
  lemma {:induction false} CandidatesExactly(nodes: seq<Node>, ways: seq<Way>, f: EntranceFilters, n: Node)
    ensures n in Candidates(nodes, ways, f) <==> n in nodes && IsCandidate(n, ways, f)
  {
    if nodes != [] {
      var init := nodes[..|nodes| - 1];
      CandidatesExactly(init, ways, f, n);
      assert nodes == init + [nodes[|nodes| - 1]];
    }
  }

  /** The candidates keep the order the nodes have in the map data. */
  lemma {:induction false} CandidatesInOrder(nodes: seq<Node>, ways: seq<Way>, f: EntranceFilters)
    ensures IsSubsequence(Candidates(nodes, ways, f), nodes)
  {
    if nodes != [] {
      var init := nodes[..|nodes| - 1];
      var c := Candidates(init, ways, f);
      CandidatesInOrder(init, ways, f);
      var last := nodes[|nodes| - 1];
      if IsCandidate(last, ways, f) {
        var a := c + [last];
        assert a[..|a| - 1] == c && a[|a| - 1] == last;
        assert Candidates(nodes, ways, f) == a;
        assert IsSubsequence(a[..|a| - 1], nodes[..|nodes| - 1]);
      } else {
        assert Candidates(nodes, ways, f) == c;
      }
    }
  }

  /** `mapData.ways.filter { filter.matches(it) }.flatMapTo(ids) { it.nodeIds }`: the ids of
      all nodes on ways that `filter` accepts. */
  method CollectNodeIds(ways: seq<Way>, filter: ElementMatcher) returns (ids: set<int>)
    ensures forall id :: id in ids <==> OnMatchingWay(id, ways, filter)
  {
    ids := {};
    for i := 0 to |ways|
      invariant forall id :: id in ids <==> OnMatchingWay(id, ways[..i], filter)
    {
      var w := ways[i];
      if filter(WayElement(w)) {
        ids := ids + set id | id in w.nodeIds;
      }
      assert ways[..i + 1] == ways[..i] + [w];
    }
    assert ways[..|ways|] == ways;
  }

  /** The nodes the quest asks about: exactly the candidates among the map data's nodes,
      in their order. Relations are never read. */
  method GetApplicableElements(mapData: MapData, f: EntranceFilters) returns (result: seq<Node>)
    ensures result == Candidates(mapData.nodes, mapData.ways, f)
    ensures forall n :: n in result <==> n in mapData.nodes && IsCandidate(n, mapData.ways, f)
    ensures IsSubsequence(result, mapData.nodes)
  {
    var buildingsWayNodeIds := CollectNodeIds(mapData.ways, f.buildingWays);
    var incomingWayNodeIds := CollectNodeIds(mapData.ways, f.incomingWays);
    var excludedWayNodeIds := CollectNodeIds(mapData.ways, f.excludedWays);

    var nodes := mapData.nodes;
    result := [];
    for i := 0 to |nodes|
      invariant result == Candidates(nodes[..i], mapData.ways, f)
    {
      var n := nodes[i];
      assert nodes[..i + 1][..i] == nodes[..i];
      if n.id in buildingsWayNodeIds && n.id in incomingWayNodeIds
        && n.id !in excludedWayNodeIds
        && f.withoutEntrance(NodeElement(n))
      {
        result := result + [n];
      }
    }
    assert nodes[..|nodes|] == nodes;
    forall n
      ensures n in result <==> n in nodes && IsCandidate(n, mapData.ways, f)
    {
      CandidatesExactly(nodes, mapData.ways, f, n);
    }
    CandidatesInOrder(nodes, mapData.ways, f);
  }

  /** `false` when the element already has an entrance, barrier or dead-end tag (or is no
      node), otherwise unknown (`None`): the answer depends on the surrounding ways. Never `true`. */
  function IsApplicableTo(f: EntranceFilters, element: Element): (r: Option<bool>)
    ensures r != Some(true)
    ensures r == Some(false) <==> !f.withoutEntrance(element)
  {
    if !f.withoutEntrance(element) then Some(false) else None
  }

  /** Whatever the node list says, `IsApplicableTo` never rules out a node the quest
      asks about. */
  lemma CandidatesNotRuledOut(nodes: seq<Node>, ways: seq<Way>, f: EntranceFilters, n: Node)
    requires n in Candidates(nodes, ways, f)
    ensures IsApplicableTo(f, NodeElement(n)) == None
  {
  }

  /** The answers a user can give: the node is a dead end, or it is some kind of
      entrance, written to the map as `osmValue`. */
  datatype EntranceAnswer =
    | DeadEnd
    | EntranceExistsAnswer(osmValue: string)

  /** The tag map after setting the one tag an answer stands for. */
  function WithAnswer(answer: EntranceAnswer, tags: Tags): (r: Tags)
    ensures answer.DeadEnd? ==> "noexit" in r && r["noexit"] == "yes"
    ensures answer.EntranceExistsAnswer? ==> "entrance" in r && r["entrance"] == answer.osmValue
    ensures r.Keys == tags.Keys + {if answer.DeadEnd? then "noexit" else "entrance"}
    ensures forall k :: k in tags && k != (if answer.DeadEnd? then "noexit" else "entrance") ==> r[k] == tags[k]
  {
    match answer
    case DeadEnd => tags["noexit" := "yes"]
    case EntranceExistsAnswer(value) => tags["entrance" := value]
  }

  /** Giving the same answer twice changes nothing beyond giving it once. */
  lemma WithAnswerIdempotent(answer: EntranceAnswer, tags: Tags)
    ensures WithAnswer(answer, WithAnswer(answer, tags)) == WithAnswer(answer, tags)
  {
  }

  /** Writes the answer into the element's tags in place. The edit's timestamp is unused. */
  method ApplyAnswerTo(answer: EntranceAnswer, tags: MutableTags, timestampEdited: int)
    modifies tags
    ensures tags.entries == WithAnswer(answer, old(tags.entries))
  {
    match answer
    case DeadEnd => tags.Set("noexit", "yes");
    case EntranceExistsAnswer(value) => tags.Set("entrance", value);
  }
}
