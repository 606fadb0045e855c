/** What an evaluated business tree shows (internal/api/business.go): every node's state by its rule over its children
    or its objects, the causes it lists, and its place in the tree. */
module BusinessMeaning {
  import opened BusinessTree

  // ---- leaves -----------------------------------------------------------------------------------

  /** The states a leaf goes by are those of its objects whose state is known, and its causes are the names of those
      that are not OK (0), in the order of the objects. */
  lemma {:induction false} LeavesJoin(a: seq<Reading>, b: seq<Reading>)
    ensures LeafStates(a + b) == LeafStates(a) + LeafStates(b)
    ensures Troubled(a + b) == Troubled(a) + Troubled(b)
  {
    if b == [] {
      assert a + b == a;
    } else {
      assert (a + b)[..|a + b| - 1] == a + b[..|b| - 1];
      LeavesJoin(a, b[..|b| - 1]);
    }
  }

  lemma OneLeaf(r: Reading)
    ensures LeafStates([r]) == if r.known then [r.state] else []
    ensures Troubled([r]) == if r.known && r.state != 0 then [r.name] else []
  {
    assert [r][..0] == [];
  }

  /** A list of causes cut to its first five. */
  ghost predicate IsCut(cut: seq<string>, all: seq<string>) {
    cut <= all && |cut| == if |all| < 5 then |all| else 5
  }

  lemma FirstFiveIsCut(all: seq<string>)
    ensures IsCut(FirstFive(all), all)
  {}

  // ---- children ---------------------------------------------------------------------------------

  /** `ids` are the services of the list that name `parent`, in the order of the list. */
  ghost predicate AreKids(svcs: seq<Service>, parent: string, ids: seq<string>) {
    && (forall k :: k in ids <==> exists i :: 0 <= i < |svcs| && svcs[i].id == k && svcs[i].parentId == parent)
    && forall a, b, i, j | 0 <= a < b < |ids| && 0 <= i < |svcs| && 0 <= j < |svcs| ::
         svcs[i].id == ids[a] && svcs[j].id == ids[b] ==> i < j
  }

  lemma {:induction false} KidsAreInOrder(svcs: seq<Service>, parent: string)
    requires UniqueIds(svcs) && parent != ""
    ensures AreKids(svcs, parent, Kids(svcs, parent))
  {
    if svcs != [] {
      var n := |svcs| - 1;
      KidsAreInOrder(svcs[..n], parent);
      KidsAreChildren(svcs, parent);
      KidsAreChildren(svcs[..n], parent);
      var before, ids := Kids(svcs[..n], parent), Kids(svcs, parent);
      forall a, b, i, j | 0 <= a < b < |ids| && 0 <= i < |svcs| && 0 <= j < |svcs| &&
                          svcs[i].id == ids[a] && svcs[j].id == ids[b]
        ensures i < j
      {
        assert ids[a] in before;
        var x :| 0 <= x < n && svcs[..n][x].id == ids[a];
        assert svcs[x].id == svcs[i].id;
        if b < |before| {
          assert ids[b] in before;
          var y :| 0 <= y < n && svcs[..n][y].id == ids[b];
          assert svcs[y].id == svcs[j].id && svcs[..n][i].id == before[a] && svcs[..n][j].id == before[b];
        }
      }
    }
  }

  // ---- nodes ------------------------------------------------------------------------------------

  function Ids(children: seq<BSNode>): seq<string> {
    seq(|children|, i requires 0 <= i < |children| => children[i].service.id)
  }

  ghost function States(children: seq<BSNode>): seq<int>
    reads children
  {
    seq(|children|, i requires 0 <= i < |children| reads children => children[i].state)
  }

  lemma {:induction false} StatesOfAre(g: Grades, ids: seq<string>)
    requires forall id :: id in ids ==> id in g
    ensures |StatesOf(g, ids)| == |ids| && forall i :: 0 <= i < |ids| ==> StatesOf(g, ids)[i] == g[ids[i]].state
  {
    if ids != [] { StatesOfAre(g, ids[..|ids| - 1]); }
  }

  /** The causes of several nodes, one after the other. */
  ghost function JoinedCauses(children: seq<BSNode>): seq<string>
    reads children
  {
    if children == [] then [] else JoinedCauses(children[..|children| - 1]) + children[|children| - 1].causes
  }

  lemma {:induction false} CausesOfAre(nodes: Nodes, g: Grades, ids: seq<string>, children: seq<BSNode>)
    requires |children| == |ids| && (forall id :: id in ids ==> id in g) && Done(nodes, g)
    requires forall i :: 0 <= i < |ids| ==> ids[i] in nodes && children[i] == nodes[ids[i]]
    ensures CausesOf(g, ids) == JoinedCauses(children)
  {
    if ids != [] {
      var n := |ids| - 1;
      assert ids[n] in ids;
      CausesOfAre(nodes, g, ids[..n], children[..n]);
    }
  }

  lemma NodePlace(svcs: seq<Service>, nodes: Nodes, id: string)
    requires UniqueIds(svcs) && Linked(svcs, nodes) && id in nodes
    ensures nodes[id].service in svcs && nodes[id].service.id == id && nodes[id].service == Index(svcs)[id]
    ensures Ids(nodes[id].children) == Kids(svcs, id) && HasChildren(nodes, id, Kids(svcs, id))
    ensures id != "" ==> AreKids(svcs, id, Ids(nodes[id].children))
  {
    hide Kids, AreKids, OneNodeEach;
    var children, kids := nodes[id].children, Kids(svcs, id);
    IndexHasAll(svcs);
    if id != "" { KidsAreInOrder(svcs, id); }
    assert HasChildren(nodes, id, kids);
    forall i | 0 <= i < |kids| ensures children[i].service.id == kids[i] {
      assert nodes[kids[i]].service == Index(svcs)[kids[i]];
    }
    assert Ids(children) == kids;
  }

  lemma ChildrenShow(nodes: Nodes, g: Grades, id: string, kids: seq<string>)
    requires id in nodes && HasChildren(nodes, id, kids) && Done(nodes, g) && forall k :: k in kids ==> k in g
    ensures StatesOf(g, kids) == States(nodes[id].children)
    ensures CausesOf(g, kids) == JoinedCauses(nodes[id].children)
  {
    hide StatesOf, CausesOf, JoinedCauses;
    StatesOfAre(g, kids);
    assert forall i :: 0 <= i < |kids| ==> kids[i] in kids;
    CausesOfAre(nodes, g, kids, nodes[id].children);
    assert StatesOf(g, kids) == States(nodes[id].children);
  }

  /** An evaluated tree, node by node: the node of each rooted service has the services that name it as children, in
      list order; its state obeys its rule over the states its children show, or over the known states of its objects if
      it has none; and it shows the first five causes of its children, or of its objects. */
  lemma NodeMeans(svcs: seq<Service>, bound: Bindings, nodes: Nodes, g: Grades, id: string)
    requires UniqueIds(svcs) && Linked(svcs, nodes) && Graded(svcs, bound, g) && Done(nodes, g) && id in g
    ensures id in nodes && nodes[id].service in svcs && nodes[id].service.id == id
    ensures id != "" ==> AreKids(svcs, id, Ids(nodes[id].children))
    ensures var n := nodes[id];
      && RuleHolds(n.service.rule, n.service.quorumPct,
                   if n.children == [] then LeafStates(bound(id)) else States(n.children), n.state)
      && IsCut(n.causes, if n.children == [] then Troubled(bound(id)) else JoinedCauses(n.children))
  {
    hide RuleHolds, Kids, LeafStates, Troubled, Aggregated, FirstFive, StatesOf, CausesOf, JoinedCauses, IsCut, AreKids,
         Linked, UniqueIds, Index;
    assert Follows(svcs, bound, g, id);
    NodesAreThere(svcs, nodes, id);
    NodePlace(svcs, nodes, id);
    var n, kids := nodes[id], Kids(svcs, id);
    if kids == [] {
      AggregateMeans(n.service, LeafStates(bound(id)));
      FirstFiveIsCut(Troubled(bound(id)));
    } else {
      ChildrenShow(nodes, g, id, kids);
      AggregateMeans(n.service, StatesOf(g, kids));
      FirstFiveIsCut(CausesOf(g, kids));
    }
  }

  lemma NodesAreThere(svcs: seq<Service>, nodes: Nodes, id: string)
    requires Linked(svcs, nodes) && id in Index(svcs)
    ensures id in nodes
  {}
}
