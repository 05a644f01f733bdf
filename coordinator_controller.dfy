/**
 * `getNodes` (src/components/coordinator/coordinator_controller.ts): the
 * coordinator-node rows and the coordinator ids, as read from the database,
 * grouped into a map from every coordinator id to the list of its nodes.
 *
 * The source builds the map in place: an empty list per coordinator id, then
 * a push of each node onto its coordinator's list. A node whose coordinator
 * id was not read makes the push fail (a TypeError), which ends the request
 * without a reply; the model returns `UnknownCoordinator` there.
 */
module CoordinatorController {

  /** A `CoordinatorNode` row; only the columns the grouping looks at. */
  datatype CoordinatorNode = CoordinatorNode(id: int, coordinatorId: int)

  datatype NodesOutcome =
    | Grouped(groups: map<int, seq<CoordinatorNode>>)
    | UnknownCoordinator(coordinatorId: int)

  /** The nodes of coordinator `c`, in the order they were read. */
  function NodesOf(nodes: seq<CoordinatorNode>, c: int): seq<CoordinatorNode>
  {
    if nodes == [] then []
    else
      var last := nodes[|nodes| - 1];
      NodesOf(nodes[..|nodes| - 1], c) + (if last.coordinatorId == c then [last] else [])
  }

  /** The positions in `nodes` of the nodes of coordinator `c`, in increasing order. */
  function Positions(nodes: seq<CoordinatorNode>, c: int): seq<nat>
  {
    if nodes == [] then []
    else
      var n := |nodes| - 1;
      Positions(nodes[..n], c) + (if nodes[n].coordinatorId == c then [n] else [])
  }

  /**
   * A coordinator's list is exactly the nodes whose `coordinatorId` is that
   * coordinator, each once, taken in read order.
   */
  lemma NodesOfSelectsInOrder(nodes: seq<CoordinatorNode>, c: int)
    ensures |NodesOf(nodes, c)| == |Positions(nodes, c)|
    ensures forall k :: 0 <= k < |Positions(nodes, c)| ==>
      Positions(nodes, c)[k] < |nodes| && NodesOf(nodes, c)[k] == nodes[Positions(nodes, c)[k]]
    ensures forall k, l :: 0 <= k < l < |Positions(nodes, c)| ==> Positions(nodes, c)[k] < Positions(nodes, c)[l]
    ensures forall i :: i in Positions(nodes, c) <==> 0 <= i < |nodes| && nodes[i].coordinatorId == c
  {
    NodesOfAtPositions(nodes, c);
    PositionsIncreasing(nodes, c);
    PositionsAreMatches(nodes, c);
  }

  lemma {:induction false} NodesOfAtPositions(nodes: seq<CoordinatorNode>, c: int)
    ensures |NodesOf(nodes, c)| == |Positions(nodes, c)|
    ensures forall k :: 0 <= k < |Positions(nodes, c)| ==>
      Positions(nodes, c)[k] < |nodes| && NodesOf(nodes, c)[k] == nodes[Positions(nodes, c)[k]]
  {
    if nodes != [] {
      var n := |nodes| - 1;
      NodesOfAtPositions(nodes[..n], c);
      assert forall i :: 0 <= i < n ==> nodes[..n][i] == nodes[i];
    }
  }

  lemma {:induction false} PositionsIncreasing(nodes: seq<CoordinatorNode>, c: int)
    ensures forall k :: 0 <= k < |Positions(nodes, c)| ==> Positions(nodes, c)[k] < |nodes|
    ensures forall k, l :: 0 <= k < l < |Positions(nodes, c)| ==> Positions(nodes, c)[k] < Positions(nodes, c)[l]
  {
    if nodes != [] {
      PositionsIncreasing(nodes[..|nodes| - 1], c);
    }
  }

  lemma {:induction false} PositionsAreMatches(nodes: seq<CoordinatorNode>, c: int)
    ensures forall i :: i in Positions(nodes, c) <==> 0 <= i < |nodes| && nodes[i].coordinatorId == c
  {
    if nodes != [] {
      var n := |nodes| - 1;
      PositionsAreMatches(nodes[..n], c);
      assert forall i :: 0 <= i < n ==> nodes[..n][i] == nodes[i];
    }
  }

  /** Each node is in its own coordinator's list as often as it was read, and in no other list. */
  lemma {:induction false} NodesOfCounts(nodes: seq<CoordinatorNode>, c: int, x: CoordinatorNode)
    ensures multiset(NodesOf(nodes, c))[x] == if x.coordinatorId == c then multiset(nodes)[x] else 0
  {
    if nodes != [] {
      var n := |nodes| - 1;
      NodesOfCounts(nodes[..n], c, x);
      assert nodes == nodes[..n] + [nodes[n]];
    }
  }

  /** A coordinator none of whose nodes was read gets the empty list. */
  lemma NoNodesGivesEmptyList(nodes: seq<CoordinatorNode>, c: int)
    requires forall i :: 0 <= i < |nodes| ==> nodes[i].coordinatorId != c
    ensures NodesOf(nodes, c) == []
  {
    NodesOfSelectsInOrder(nodes, c);
  }

  /** How many times `c` occurs in `ids`. */
  function Occurrences(ids: seq<int>, c: int): nat
  {
    if ids == [] then 0 else (if ids[0] == c then 1 else 0) + Occurrences(ids[1..], c)
  }

  lemma {:induction false} OccurrencesOfDistinct(ids: seq<int>, c: int)
    requires forall i, j :: 0 <= i < j < |ids| ==> ids[i] != ids[j]
    ensures Occurrences(ids, c) == if c in ids then 1 else 0
  {
    if ids != [] {
      OccurrencesOfDistinct(ids[1..], c);
      if ids[0] == c {
        assert c !in ids[1..];
      }
    }
  }

  /** The total length of the lists of the coordinators in `ids`. */
  function TotalLength(nodes: seq<CoordinatorNode>, ids: seq<int>): nat
  {
    if ids == [] then 0 else |NodesOf(nodes, ids[0])| + TotalLength(nodes, ids[1..])
  }

  lemma {:induction false} TotalLengthStep(nodes: seq<CoordinatorNode>, ids: seq<int>)
    requires nodes != []
    ensures TotalLength(nodes, ids)
      == TotalLength(nodes[..|nodes| - 1], ids) + Occurrences(ids, nodes[|nodes| - 1].coordinatorId)
  {
    if ids != [] {
      TotalLengthStep(nodes, ids[1..]);
    }
  }

  /**
   * When the coordinator ids are distinct and cover every node, the lists
   * together hold exactly as many entries as there are nodes.
   */
  lemma {:induction false} TotalLengthIsNodeCount(nodes: seq<CoordinatorNode>, ids: seq<int>)
    requires forall i, j :: 0 <= i < j < |ids| ==> ids[i] != ids[j]
    requires forall i :: 0 <= i < |nodes| ==> nodes[i].coordinatorId in ids
    ensures TotalLength(nodes, ids) == |nodes|
  {
    if nodes == [] {
      TotalLengthOfNoNodes(ids);
    } else {
      var n := |nodes| - 1;
      TotalLengthStep(nodes, ids);
      OccurrencesOfDistinct(ids, nodes[n].coordinatorId);
      assert forall i :: 0 <= i < n ==> nodes[..n][i] == nodes[i];
      TotalLengthIsNodeCount(nodes[..n], ids);
    }
  }

  lemma {:induction false} TotalLengthOfNoNodes(ids: seq<int>)
    ensures TotalLength([], ids) == 0
  {
    if ids != [] {
      TotalLengthOfNoNodes(ids[1..]);
    }
  }

  /** `getNodes`: the reduce that seeds an empty list per coordinator, then the push of each node. */
  method GetNodes(nodes: seq<CoordinatorNode>, coordinatorIds: seq<int>) returns (out: NodesOutcome)
    ensures out.Grouped? <==> forall i :: 0 <= i < |nodes| ==> nodes[i].coordinatorId in coordinatorIds
    ensures out.Grouped? ==> out.groups.Keys == set c | c in coordinatorIds
    ensures out.Grouped? ==> forall c :: c in out.groups ==> out.groups[c] == NodesOf(nodes, c)
    ensures out.UnknownCoordinator? ==>
      out.coordinatorId !in coordinatorIds &&
      exists i :: 0 <= i < |nodes| && nodes[i].coordinatorId == out.coordinatorId
  {
    var acc: map<int, seq<CoordinatorNode>> := map[];
    for k := 0 to |coordinatorIds|
      invariant acc.Keys == set c | c in coordinatorIds[..k]
      invariant forall c :: c in acc ==> acc[c] == []
    {
      acc := acc[coordinatorIds[k] := []];
      assert coordinatorIds[..k + 1] == coordinatorIds[..k] + [coordinatorIds[k]];
    }
    assert coordinatorIds[..|coordinatorIds|] == coordinatorIds;
    for j := 0 to |nodes|
      invariant acc.Keys == set c | c in coordinatorIds
      invariant forall c :: c in acc ==> acc[c] == NodesOf(nodes[..j], c)
      invariant forall i :: 0 <= i < j ==> nodes[i].coordinatorId in coordinatorIds
    {
      var node := nodes[j];
      assert nodes[..j + 1][..j] == nodes[..j];
      if node.coordinatorId !in acc {
        return UnknownCoordinator(node.coordinatorId);
      }
      acc := acc[node.coordinatorId := acc[node.coordinatorId] + [node]];
    }
    assert nodes[..|nodes|] == nodes;
    return Grouped(acc);
  }
}
