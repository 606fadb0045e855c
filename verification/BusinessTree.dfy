/** The business-service forest and its grading (internal/api/business.go).

    Services name their parents freely, so parent links may form cycles.  Grading is tied to a set of
    local equations (a node's grade follows from its children's), which have exactly one solution on
    the nodes whose parent chain ends at a root. */
module BusinessTree {

  const OK := 0
  const WARNING := 1
  const CRITICAL := 2
  const UNKNOWN := 3

  /** States are small integers; anything unlisted ranks as bad as CRITICAL. */
  function Rank(state: int): nat {
    if state == OK then 0
    else if state == WARNING then 1
    else if state == UNKNOWN then 2
    else 3
  }

  /** Every rule but best and quorum is graded as worst. */
  datatype Rule = Worst | Best | Quorum | Weighted

  datatype Service = Service(id: string, parentId: string, rule: Rule, quorumPct: real)

  // ---- aggregation ------------------------------------------------------------------------------

  function Worse(a: int, b: int): int { if Rank(b) > Rank(a) then b else a }

  function Better(a: int, b: int): int { if Rank(b) < Rank(a) then b else a }

  function WorstOf(states: seq<int>): int {
    if states == [] then OK else Worse(WorstOf(states[..|states| - 1]), states[|states| - 1])
  }

  function BestOf(states: seq<int>): int {
    if states == [] then CRITICAL else Better(BestOf(states[..|states| - 1]), states[|states| - 1])
  }

  function Healthy(states: seq<int>): (n: nat)
    ensures n <= |states|
  {
    if states == [] then 0
    else Healthy(states[..|states| - 1]) + if states[|states| - 1] == OK then 1 else 0
  }

  function Threshold(pct: real): real { if pct <= 0.0 then 50.0 else pct }

  predicate QuorumMet(ok: nat, n: nat, pct: real)
    requires n > 0
  {
    ok as real / n as real * 100.0 >= Threshold(pct)
  }

  function Aggregated(s: Service, states: seq<int>): int {
    if states == [] then UNKNOWN
    else
      match s.rule
      case Best => BestOf(states)
      case Quorum => if QuorumMet(Healthy(states), |states|, s.quorumPct) then OK else CRITICAL
      case _ => WorstOf(states)
  }

  /** `a` is no worse than `b`: OK (0) is best, then WARNING (1), then UNKNOWN (3); CRITICAL (2) and anything unlisted
      is worst. */
  predicate NoWorseThan(a: int, b: int) {
    a == 0 || (a == 1 && b != 0) || (a == 3 && b != 0 && b != 1) || (b != 0 && b != 1 && b != 3)
  }

  lemma RankIsThatOrder(a: int, b: int)
    ensures Rank(a) <= Rank(b) <==> NoWorseThan(a, b)
  {}

  /** As bad as one of the states. */
  ghost predicate AsBadAsOne(state: int, states: seq<int>) {
    exists i :: 0 <= i < |states| && NoWorseThan(state, states[i]) && NoWorseThan(states[i], state)
  }

  ghost function Places(states: seq<int>, state: int): set<nat> {
    set i: nat | i < |states| && states[i] == state
  }

  /** What each rule promises of its result: nothing to go by is UNKNOWN (3); worst, and weighted like it, is as bad as
      one state and no better than any; best is as bad as one and no worse than any; a quorum is OK (0) exactly when at
      least the percentage asked for, by default half, is OK, otherwise CRITICAL (2). */
  ghost predicate RuleHolds(rule: Rule, quorumPct: real, states: seq<int>, result: int) {
    if states == [] then result == 3
    else
      match rule
      case Best =>
        AsBadAsOne(result, states) && forall i :: 0 <= i < |states| ==> NoWorseThan(result, states[i])
      case Quorum =>
        var needed := if quorumPct <= 0.0 then 50.0 else quorumPct;
        result == if 100.0 * |Places(states, 0)| as real >= needed * |states| as real then 0 else 2
      case _ =>
        AsBadAsOne(result, states) && forall i :: 0 <= i < |states| ==> NoWorseThan(states[i], result)
  }

  lemma {:induction false} HealthyCounts(states: seq<int>)
    ensures Healthy(states) == |Places(states, 0)|
  {
    if states == [] {
      assert Places(states, 0) == {};
    } else {
      var n := |states| - 1;
      HealthyCounts(states[..n]);
      var before := Places(states[..n], 0);
      assert n !in before;
      assert Places(states, 0) == if states[n] == 0 then before + {n} else before;
    }
  }

  lemma QuorumIs(ok: nat, n: nat, pct: real)
    requires n > 0
    ensures QuorumMet(ok, n, pct) <==> 100.0 * ok as real >= (if pct <= 0.0 then 50.0 else pct) * n as real
  {
    var share := ok as real / n as real;
    assert share * n as real == ok as real;
  }

  lemma AggregateMeans(s: Service, states: seq<int>)
    ensures RuleHolds(s.rule, s.quorumPct, states, Aggregated(s, states))
  {
    ExtremeRanks(states);
    forall a: int, b: int ensures Rank(a) <= Rank(b) <==> NoWorseThan(a, b) { RankIsThatOrder(a, b); }
    HealthyCounts(states);
    if states != [] { QuorumIs(Healthy(states), |states|, s.quorumPct); }
  }

  method Aggregate(s: Service, states: seq<int>) returns (state: int)
    ensures state == Aggregated(s, states)
    ensures RuleHolds(s.rule, s.quorumPct, states, state)
  {
    AggregateMeans(s, states);
    hide RuleHolds;
    if |states| == 0 { return UNKNOWN; }
    match s.rule
    case Best =>
      state := CRITICAL;
      for i := 0 to |states|
        invariant state == BestOf(states[..i])
      {
        assert states[..i + 1][..i] == states[..i];
        if Rank(states[i]) < Rank(state) { state := states[i]; }
      }
      assert states[..|states|] == states;
    case Quorum =>
      var pct := s.quorumPct;
      if pct <= 0.0 { pct := 50.0; }
      var ok := 0;
      for i := 0 to |states|
        invariant ok == Healthy(states[..i])
      {
        assert states[..i + 1][..i] == states[..i];
        if states[i] == OK { ok := ok + 1; }
      }
      assert states[..|states|] == states;
      state := if ok as real / |states| as real * 100.0 >= pct then OK else CRITICAL;
    case _ =>
      state := OK;
      for i := 0 to |states|
        invariant state == WorstOf(states[..i])
      {
        assert states[..i + 1][..i] == states[..i];
        if Rank(states[i]) > Rank(state) { state := states[i]; }
      }
      assert states[..|states|] == states;
  }

  /** The worst rule reports the highest rank among the children, the best rule the lowest. */
  lemma {:induction false} ExtremeRanks(states: seq<int>)
    ensures forall i :: 0 <= i < |states| ==> Rank(BestOf(states)) <= Rank(states[i]) <= Rank(WorstOf(states))
    ensures states != [] ==> exists i :: 0 <= i < |states| && Rank(states[i]) == Rank(WorstOf(states))
    ensures states != [] ==> exists i :: 0 <= i < |states| && Rank(states[i]) == Rank(BestOf(states))
  {
    if states != [] {
      var n := |states| - 1;
      ExtremeRanks(states[..n]);
      assert forall i :: 0 <= i < n ==> states[..n][i] == states[i];
      if n == 0 { assert Rank(states[0]) == Rank(WorstOf(states)) == Rank(BestOf(states)); }
    }
  }

  ghost predicate NoWorse(states: seq<int>, than: seq<int>) {
    |states| == |than| && forall i :: 0 <= i < |states| ==> Rank(states[i]) <= Rank(than[i])
  }

  lemma {:induction false} FoldsAreMonotone(a: seq<int>, b: seq<int>)
    requires NoWorse(a, b)
    ensures Rank(WorstOf(a)) <= Rank(WorstOf(b))
    ensures Rank(BestOf(a)) <= Rank(BestOf(b))
    ensures Healthy(a) >= Healthy(b)
  {
    if a != [] {
      FoldsAreMonotone(a[..|a| - 1], b[..|b| - 1]);
    }
  }

  lemma MoreHealthyKeepsQuorum(more: nat, ok: nat, n: nat, pct: real)
    requires ok <= more && n > 0 && QuorumMet(ok, n, pct)
    ensures QuorumMet(more, n, pct)
  {
    assert more as real / n as real >= ok as real / n as real;
  }

  lemma AggregateIsMonotone(s: Service, a: seq<int>, b: seq<int>)
    requires NoWorse(a, b)
    ensures Rank(Aggregated(s, a)) <= Rank(Aggregated(s, b))
  {
    FoldsAreMonotone(a, b);
    if a != [] && QuorumMet(Healthy(b), |b|, s.quorumPct) {
      MoreHealthyKeepsQuorum(Healthy(a), Healthy(b), |b|, s.quorumPct);
    }
  }

  // ---- leaves -----------------------------------------------------------------------------------

  /** An object bound to a leaf; `known` is false when the store has no check state for it. */
  datatype Reading = Reading(name: string, known: bool, state: int)

  /** The objects a service's own id or selector resolves to, in lookup order. */
  type Bindings = string -> seq<Reading>

  ghost function LeafStates(rs: seq<Reading>): seq<int> {
    if rs == [] then []
    else
      var r := rs[|rs| - 1];
      LeafStates(rs[..|rs| - 1]) + if r.known then [r.state] else []
  }

  ghost function Troubled(rs: seq<Reading>): seq<string> {
    if rs == [] then []
    else
      var r := rs[|rs| - 1];
      Troubled(rs[..|rs| - 1]) + if r.known && r.state != OK then [r.name] else []
  }

  const MAX_CAUSES := 5

  function FirstFive(causes: seq<string>): seq<string> {
    if |causes| > MAX_CAUSES then causes[..MAX_CAUSES] else causes
  }

  method ReadLeaf(rs: seq<Reading>) returns (states: seq<int>, causes: seq<string>)
    ensures states == LeafStates(rs)
    ensures causes == FirstFive(Troubled(rs))
  {
    states, causes := [], [];
    for i := 0 to |rs|
      invariant states == LeafStates(rs[..i])
      invariant causes == FirstFive(Troubled(rs[..i]))
    {
      assert rs[..i + 1][..i] == rs[..i];
      if rs[i].known {
        states := states + [rs[i].state];
        if rs[i].state != OK && |causes| < MAX_CAUSES { causes := causes + [rs[i].name]; }
      }
    }
    assert rs[..|rs|] == rs;
  }

  // ---- shape ------------------------------------------------------------------------------------

  ghost predicate UniqueIds(svcs: seq<Service>) {
    forall i, j :: 0 <= i < j < |svcs| ==> svcs[i].id != svcs[j].id
  }

  ghost function Index(svcs: seq<Service>): map<string, Service> {
    if svcs == [] then map[] else Index(svcs[..|svcs| - 1])[svcs[|svcs| - 1].id := svcs[|svcs| - 1]]
  }

  /** Services whose parent is `id`, in list order. */
  ghost function Kids(svcs: seq<Service>, id: string): seq<string> {
    if svcs == [] then []
    else
      var s := svcs[|svcs| - 1];
      Kids(svcs[..|svcs| - 1], id) + if s.parentId == id && id != "" then [s.id] else []
  }

  ghost predicate IsRoot(tree: map<string, Service>, id: string) {
    id in tree && (tree[id].parentId == "" || tree[id].parentId !in tree)
  }

  /** A chain of parents, written from its root down. */
  ghost predicate RootPath(tree: map<string, Service>, p: seq<string>) {
    && 0 < |p|
    && IsRoot(tree, p[0])
    && forall i :: 0 < i < |p| ==> p[i] in tree && !IsRoot(tree, p[i]) && tree[p[i]].parentId == p[i - 1]
  }

  function Last(p: seq<string>): string { if p == [] then "" else p[|p| - 1] }

  /** The parent chain of `id` ends at a root. */
  ghost predicate Rooted(tree: map<string, Service>, id: string) {
    exists p :: RootPath(tree, p) && Last(p) == id
  }

  lemma {:induction false} IndexHasAll(svcs: seq<Service>)
    requires UniqueIds(svcs)
    ensures forall i :: 0 <= i < |svcs| ==> svcs[i].id in Index(svcs) && Index(svcs)[svcs[i].id] == svcs[i]
    ensures forall id :: id in Index(svcs) ==>
      Index(svcs)[id].id == id && exists i :: 0 <= i < |svcs| && svcs[i].id == id
  {
    if svcs != [] {
      var init := svcs[..|svcs| - 1];
      IndexHasAll(init);
      assert forall i :: 0 <= i < |init| ==> svcs[i] == init[i];
    }
  }

  lemma {:induction false} KidsAreChildren(svcs: seq<Service>, id: string)
    ensures forall k :: k in Kids(svcs, id) <==>
      id != "" && exists i :: 0 <= i < |svcs| && svcs[i].id == k && svcs[i].parentId == id
  {
    if svcs != [] {
      var init := svcs[..|svcs| - 1];
      KidsAreChildren(init, id);
      assert forall i :: 0 <= i < |init| ==> svcs[i] == init[i];
    }
  }

  lemma {:induction false} KidsAreDistinct(svcs: seq<Service>, id: string)
    requires UniqueIds(svcs)
    ensures forall i, j :: 0 <= i < j < |Kids(svcs, id)| ==> Kids(svcs, id)[i] != Kids(svcs, id)[j]
  {
    if svcs != [] {
      var init := svcs[..|svcs| - 1];
      KidsAreDistinct(init, id);
      KidsAreChildren(init, id);
      assert forall i :: 0 <= i < |init| ==> svcs[i] == init[i];
      assert svcs[|init|].id !in Kids(init, id);
    }
  }

  /** Services that are not attached to another one, in list order. */
  ghost function RootIds(svcs: seq<Service>, tree: map<string, Service>): seq<string> {
    if svcs == [] then []
    else
      var s := svcs[|svcs| - 1];
      RootIds(svcs[..|svcs| - 1], tree) + if s.parentId != "" && s.parentId in tree then [] else [s.id]
  }

  /** The subtrees that hang from the end of `p`; the whole forest hangs from the empty path. */
  ghost function Tops(svcs: seq<Service>, p: seq<string>): seq<string> {
    if p == [] then RootIds(svcs, Index(svcs)) else Kids(svcs, Last(p))
  }

  ghost predicate Trunk(svcs: seq<Service>, p: seq<string>) {
    p == [] || RootPath(Index(svcs), p)
  }

  lemma {:induction false} RootIdsAre(svcs: seq<Service>, tree: map<string, Service>)
    ensures forall k :: k in RootIds(svcs, tree) <==>
      exists i :: 0 <= i < |svcs| && svcs[i].id == k && (svcs[i].parentId == "" || svcs[i].parentId !in tree)
  {
    if svcs != [] {
      var init := svcs[..|svcs| - 1];
      RootIdsAre(init, tree);
      assert forall i :: 0 <= i < |init| ==> svcs[i] == init[i];
    }
  }

  lemma {:induction false} RootIdsAreDistinct(svcs: seq<Service>, tree: map<string, Service>)
    requires UniqueIds(svcs)
    ensures forall i, j :: 0 <= i < j < |RootIds(svcs, tree)| ==> RootIds(svcs, tree)[i] != RootIds(svcs, tree)[j]
  {
    if svcs != [] {
      var init := svcs[..|svcs| - 1];
      RootIdsAreDistinct(init, tree);
      RootIdsAre(init, tree);
      assert forall i :: 0 <= i < |init| ==> svcs[i] == init[i];
      assert svcs[|init|].id !in RootIds(init, tree);
    }
  }

  lemma TopExtendsTrunk(svcs: seq<Service>, p: seq<string>, k: string)
    requires UniqueIds(svcs) && Trunk(svcs, p)
    ensures k in Tops(svcs, p) <==> RootPath(Index(svcs), p + [k])
  {
    if p == [] {
      IndexHasAll(svcs);
      RootIdsAre(svcs, Index(svcs));
      assert p + [k] == [k];
    } else {
      KidExtendsPath(svcs, p, k);
    }
  }

  lemma TopsAreDistinct(svcs: seq<Service>, p: seq<string>)
    requires UniqueIds(svcs)
    ensures forall i, j :: 0 <= i < j < |Tops(svcs, p)| ==> Tops(svcs, p)[i] != Tops(svcs, p)[j]
  {
    RootIdsAreDistinct(svcs, Index(svcs));
    KidsAreDistinct(svcs, Last(p));
  }

  lemma KidExtendsPath(svcs: seq<Service>, p: seq<string>, k: string)
    requires UniqueIds(svcs) && RootPath(Index(svcs), p)
    ensures k in Kids(svcs, Last(p)) <==> RootPath(Index(svcs), p + [k])
  {
    hide UniqueIds, Index, Kids;
    IndexHasAll(svcs);
    KidsAreChildren(svcs, Last(p));
    OneMoreOnPath(Index(svcs), p, k);
  }

  lemma OneMoreOnPath(tree: map<string, Service>, p: seq<string>, k: string)
    requires RootPath(tree, p)
    ensures Last(p) in tree
    ensures RootPath(tree, p + [k]) <==> k in tree && Last(p) != "" && tree[k].parentId == Last(p)
  {
    var q := p + [k];
    assert q[|p|] == k && q[|p| - 1] == Last(p);
    assert forall i :: 0 <= i < |p| ==> q[i] == p[i];
  }

  lemma {:induction false} PathToIsUnique(tree: map<string, Service>, p: seq<string>, q: seq<string>)
    requires RootPath(tree, p) && RootPath(tree, q) && Last(p) == Last(q)
    ensures p == q
  {
    if |p| > 1 && |q| > 1 {
      PathToIsUnique(tree, p[..|p| - 1], q[..|q| - 1]);
      assert p == p[..|p| - 1] + [Last(p)];
      assert q == q[..|q| - 1] + [Last(q)];
    }
  }

  /** A chain that reaches a root passes no service twice, so it is no longer than the list. */
  lemma PathFits(tree: map<string, Service>, p: seq<string>)
    requires RootPath(tree, p)
    ensures |p| <= |tree|
  {
    forall i, j | 0 <= i < j < |p| ensures p[i] != p[j] {
      if p[i] == p[j] {
        PathToIsUnique(tree, p[..i + 1], p[..j + 1]);
      }
    }
    DistinctFits(p, tree.Keys);
  }

  lemma {:induction false} DistinctFits(p: seq<string>, keys: set<string>)
    requires forall i, j :: 0 <= i < j < |p| ==> p[i] != p[j]
    requires forall i :: 0 <= i < |p| ==> p[i] in keys
    ensures |p| <= |keys|
  {
    if p != [] {
      DistinctFits(p[..|p| - 1], keys - {p[|p| - 1]});
    }
  }

  // ---- grades -----------------------------------------------------------------------------------

  datatype Grade = Grade(state: int, causes: seq<string>)
  type Grades = map<string, Grade>

  ghost function StatesOf(g: Grades, ids: seq<string>): seq<int>
    requires forall id :: id in ids ==> id in g
  {
    if ids == [] then [] else StatesOf(g, ids[..|ids| - 1]) + [g[ids[|ids| - 1]].state]
  }

  ghost function CausesOf(g: Grades, ids: seq<string>): seq<string>
    requires forall id :: id in ids ==> id in g
  {
    if ids == [] then [] else CausesOf(g, ids[..|ids| - 1]) + g[ids[|ids| - 1]].causes
  }

  /** The equation of one node. */
  ghost predicate Follows(svcs: seq<Service>, bound: Bindings, g: Grades, id: string) {
    var tree, kids := Index(svcs), Kids(svcs, id);
    && id in tree && id in g
    && (forall k :: k in kids ==> k in g)
    && g[id] ==
       if kids == [] then
         Grade(Aggregated(tree[id], LeafStates(bound(id))), FirstFive(Troubled(bound(id))))
       else
         Grade(Aggregated(tree[id], StatesOf(g, kids)), FirstFive(CausesOf(g, kids)))
  }

  ghost predicate Graded(svcs: seq<Service>, bound: Bindings, g: Grades) {
    forall id :: id in g ==> Follows(svcs, bound, g, id)
  }

  lemma {:induction false} StatesDepend(g: Grades, h: Grades, ids: seq<string>)
    requires forall id :: id in ids ==> id in g && id in h && g[id] == h[id]
    ensures StatesOf(g, ids) == StatesOf(h, ids) && CausesOf(g, ids) == CausesOf(h, ids)
  {
    if ids != [] { StatesDepend(g, h, ids[..|ids| - 1]); }
  }

  lemma GradesMerge(svcs: seq<Service>, bound: Bindings, g: Grades, h: Grades)
    requires Graded(svcs, bound, g) && Graded(svcs, bound, h) && g.Keys !! h.Keys
    ensures Graded(svcs, bound, g + h)
  {
    forall id | id in g + h ensures Follows(svcs, bound, g + h, id) {
      var part := if id in g then g else h;
      assert Follows(svcs, bound, part, id);
      StatesDepend(part, g + h, Kids(svcs, id));
    }
  }

  /** The equations have one solution on the rooted services. */
  lemma {:induction false} GradesAreUnique(svcs: seq<Service>, bound: Bindings, g: Grades, h: Grades, p: seq<string>)
    requires UniqueIds(svcs) && Graded(svcs, bound, g) && Graded(svcs, bound, h)
    requires RootPath(Index(svcs), p) && Last(p) in g && Last(p) in h
    ensures g[Last(p)] == h[Last(p)]
    decreases |Index(svcs)| - |p|
  {
    var kids := Kids(svcs, Last(p));
    assert Follows(svcs, bound, g, Last(p)) && Follows(svcs, bound, h, Last(p));
    PathFits(Index(svcs), p);
    forall k | k in kids ensures g[k] == h[k] {
      KidExtendsPath(svcs, p, k);
      PathFits(Index(svcs), p + [k]);
      GradesAreUnique(svcs, bound, g, h, p + [k]);
    }
    StatesDepend(g, h, kids);
  }

  /** With the shape and the rules fixed, improving leaves never worsens any ancestor. */
  lemma {:induction false} GradingIsMonotone(svcs: seq<Service>, better: Bindings, worse: Bindings,
                                             g: Grades, h: Grades, p: seq<string>)
    requires UniqueIds(svcs) && Graded(svcs, better, g) && Graded(svcs, worse, h)
    requires forall id :: NoWorse(LeafStates(better(id)), LeafStates(worse(id)))
    requires RootPath(Index(svcs), p) && Last(p) in g && Last(p) in h
    ensures Rank(g[Last(p)].state) <= Rank(h[Last(p)].state)
    decreases |Index(svcs)| - |p|
  {
    var id, kids := Last(p), Kids(svcs, Last(p));
    assert Follows(svcs, better, g, id) && Follows(svcs, worse, h, id);
    PathFits(Index(svcs), p);
    if kids == [] {
      AggregateIsMonotone(Index(svcs)[id], LeafStates(better(id)), LeafStates(worse(id)));
    } else {
      forall k | k in kids ensures Rank(g[k].state) <= Rank(h[k].state) {
        KidExtendsPath(svcs, p, k);
        PathFits(Index(svcs), p + [k]);
        GradingIsMonotone(svcs, better, worse, g, h, p + [k]);
      }
      StatesCompare(g, h, kids);
      AggregateIsMonotone(Index(svcs)[id], StatesOf(g, kids), StatesOf(h, kids));
    }
  }

  /** Seen on the nodes: of two evaluated trees over the same services, the one with the better leaves shows every
      rooted service in a state that is no worse. */
  lemma ImprovementShows(svcs: seq<Service>, better: Bindings, worse: Bindings,
                         nodes: Nodes, g: Grades, nodes': Nodes, h: Grades, id: string)
    requires UniqueIds(svcs) && Graded(svcs, better, g) && Graded(svcs, worse, h)
    requires Done(nodes, g) && Done(nodes', h) && Rooted(Index(svcs), id)
    requires (forall x :: x in g <==> Rooted(Index(svcs), x)) && forall x :: x in h <==> Rooted(Index(svcs), x)
    requires forall x :: NoWorse(LeafStates(better(x)), LeafStates(worse(x)))
    ensures id in nodes && id in nodes' && Rank(nodes[id].state) <= Rank(nodes'[id].state)
  {
    hide UniqueIds, Graded, RootPath, LeafStates, NoWorse;
    var p :| RootPath(Index(svcs), p) && Last(p) == id;
    GradingIsMonotone(svcs, better, worse, g, h, p);
  }

  lemma {:induction false} StatesCompare(g: Grades, h: Grades, ids: seq<string>)
    requires forall id :: id in ids ==> id in g && id in h && Rank(g[id].state) <= Rank(h[id].state)
    ensures NoWorse(StatesOf(g, ids), StatesOf(h, ids))
  {
    if ids != [] { StatesCompare(g, h, ids[..|ids| - 1]); }
  }

  // ---- the nodes --------------------------------------------------------------------------------

  class BSNode {
    const service: Service
    var state: int
    var children: seq<BSNode>
    var causes: seq<string>
    ghost var evaluations: nat

    constructor (s: Service)
      ensures service == s && state == OK && children == [] && causes == [] && evaluations == 0
    {
      service, state, children, causes, evaluations := s, OK, [], [], 0;
    }
  }

  type Nodes = map<string, BSNode>

  ghost function Region(nodes: Nodes, ids: set<string>): set<BSNode> {
    set x | x in ids && x in nodes :: nodes[x]
  }

  ghost predicate OneNodeEach(nodes: Nodes) {
    forall id, id' :: id in nodes && id' in nodes && id != id' ==> nodes[id] != nodes[id']
  }

  /** One node per service, and children in list order. */
  ghost predicate Linked(svcs: seq<Service>, nodes: Nodes)
    reads nodes.Values`children
  {
    && nodes.Keys == Index(svcs).Keys
    && OneNodeEach(nodes)
    && (forall id :: id in nodes ==> nodes[id].service == Index(svcs)[id])
    && forall id :: id in nodes ==> HasChildren(nodes, id, Kids(svcs, id))
  }

  ghost predicate HasChildren(nodes: Nodes, id: string, kids: seq<string>)
    requires id in nodes
    reads nodes.Values`children
  {
    && |nodes[id].children| == |kids|
    && forall i :: 0 <= i < |kids| ==> kids[i] in nodes && nodes[id].children[i] == nodes[kids[i]]
  }

  /** Not evaluated yet. */
  ghost predicate Pending(nodes: Nodes, ids: set<string>)
    reads Region(nodes, ids)
  {
    forall x :: x in ids && x in nodes ==> nodes[x].evaluations == 0 && nodes[x].causes == []
  }

  /** Evaluated exactly once, and carrying the grades of `g`. */
  ghost predicate Done(nodes: Nodes, g: Grades)
    reads Region(nodes, g.Keys)
  {
    forall x :: x in g ==>
      x in nodes && nodes[x].evaluations == 1 && nodes[x].state == g[x].state && nodes[x].causes == g[x].causes
  }

  // ---- what lies below a node -------------------------------------------------------------------

  /** The services whose root path runs through the end of `p`. */
  ghost function Under(svcs: seq<Service>, p: seq<string>): set<string> {
    set x | x in Index(svcs) && exists q :: RootPath(Index(svcs), q) && p <= q && Last(q) == x
  }

  ghost function UnderKids(svcs: seq<Service>, p: seq<string>, kids: seq<string>): set<string> {
    if kids == [] then {}
    else UnderKids(svcs, p, kids[..|kids| - 1]) + Under(svcs, p + [kids[|kids| - 1]])
  }

  lemma PathNodesExist(tree: map<string, Service>, p: seq<string>)
    requires RootPath(tree, p)
    ensures Last(p) in tree
  {}

  lemma UnderItself(svcs: seq<Service>, p: seq<string>)
    requires RootPath(Index(svcs), p)
    ensures Last(p) in Under(svcs, p)
  {
    PathNodesExist(Index(svcs), p);
  }

  lemma SiblingsAreApart(svcs: seq<Service>, p: seq<string>, j: string, k: string)
    requires Trunk(svcs, p) && j != k
    ensures Under(svcs, p + [j]) !! Under(svcs, p + [k])
    ensures p != [] ==> Last(p) !in Under(svcs, p + [k])
  {
    var tree := Index(svcs);
    forall x | x in Under(svcs, p + [j]) && x in Under(svcs, p + [k]) ensures false {
      var q :| RootPath(tree, q) && p + [j] <= q && Last(q) == x;
      var r :| RootPath(tree, r) && p + [k] <= r && Last(r) == x;
      assert (p + [j])[|p|] == q[|p|] && (p + [k])[|p|] == r[|p|];
      PathToIsUnique(tree, q, r);
    }
    if p != [] && Last(p) in Under(svcs, p + [k]) {
      var r :| RootPath(tree, r) && p + [k] <= r && Last(r) == Last(p);
      PathToIsUnique(tree, p, r);
    }
  }

  lemma {:induction false} UnderKidsIs(svcs: seq<Service>, p: seq<string>, kids: seq<string>)
    ensures forall x :: x in UnderKids(svcs, p, kids) <==> exists k :: k in kids && x in Under(svcs, p + [k])
  {
    if kids != [] {
      hide Under;
      UnderKidsIs(svcs, p, kids[..|kids| - 1]);
      var l := kids[|kids| - 1];
      assert l in kids;
      assert forall k :: k in kids <==> k in kids[..|kids| - 1] || k == l;
    }
  }

  /** A subtree is its top and the subtrees of its children; the forest is its trees. */
  lemma UnderDecomposes(svcs: seq<Service>, p: seq<string>)
    requires UniqueIds(svcs) && Trunk(svcs, p)
    ensures Under(svcs, p) == (if p == [] then {} else {Last(p)}) + UnderKids(svcs, p, Tops(svcs, p))
  {
    hide *;
    UnderKidsIs(svcs, p, Tops(svcs, p));
    forall x | x in Under(svcs, p)
      ensures x in (if p == [] then {} else {Last(p)}) + UnderKids(svcs, p, Tops(svcs, p))
    {
      UnderStep(svcs, p, x);
    }
    forall k, x | k in Tops(svcs, p) && x in Under(svcs, p + [k]) ensures x in Under(svcs, p) {
      UnderGrows(svcs, p, k);
    }
    if p != [] { TrunkIsPath(svcs, p); UnderItself(svcs, p); }
  }

  lemma TrunkIsPath(svcs: seq<Service>, p: seq<string>)
    requires Trunk(svcs, p) && p != []
    ensures RootPath(Index(svcs), p)
  {}

  lemma UnderGrows(svcs: seq<Service>, p: seq<string>, k: string)
    ensures Under(svcs, p + [k]) <= Under(svcs, p)
  {
    forall x | x in Under(svcs, p + [k]) ensures x in Under(svcs, p) {
      var q :| RootPath(Index(svcs), q) && p + [k] <= q && Last(q) == x;
      assert p <= p + [k] <= q;
    }
  }

  lemma UnderStep(svcs: seq<Service>, p: seq<string>, x: string)
    requires UniqueIds(svcs) && Trunk(svcs, p) && x in Under(svcs, p)
    ensures (p != [] && x == Last(p)) || exists k :: k in Tops(svcs, p) && x in Under(svcs, p + [k])
  {
    hide Tops, UniqueIds, Index;
    var tree := Index(svcs);
    var q :| RootPath(tree, q) && p <= q && Last(q) == x;
    if p != q {
      var k := q[|p|];
      assert q[..|p| + 1] == p + [k];
      PrefixIsPath(tree, q, |p| + 1);
      TopExtendsTrunk(svcs, p, k);
      assert p + [k] <= q;
      assert k in Tops(svcs, p) && x in Under(svcs, p + [k]);
    }
  }

  lemma PrefixIsPath(tree: map<string, Service>, q: seq<string>, n: nat)
    requires RootPath(tree, q) && 0 < n <= |q|
    ensures RootPath(tree, q[..n])
  {}

  lemma ApartInTheHeap(nodes: Nodes, a: set<string>, b: set<string>)
    requires OneNodeEach(nodes) && a !! b
    ensures Region(nodes, a) !! Region(nodes, b)
  {}

  /** The i-th child's subtree is new, lies below the node, and misses the node itself. */
  lemma KidIsNext(svcs: seq<Service>, p: seq<string>, i: nat)
    requires UniqueIds(svcs) && Trunk(svcs, p) && i < |Tops(svcs, p)|
    ensures var kids := Tops(svcs, p);
      && RootPath(Index(svcs), p + [kids[i]])
      && Under(svcs, p + [kids[i]]) !! UnderKids(svcs, p, kids[..i])
      && Under(svcs, p + [kids[i]]) <= UnderKids(svcs, p, kids)
      && UnderKids(svcs, p, kids[..i + 1]) == UnderKids(svcs, p, kids[..i]) + Under(svcs, p + [kids[i]])
  {
    hide Under, Tops, UniqueIds, RootPath, Trunk;
    var kids := Tops(svcs, p);
    TopExtendsTrunk(svcs, p, kids[i]);
    TopsAreDistinct(svcs, p);
    UnderKidsIs(svcs, p, kids);
    UnderKidsIs(svcs, p, kids[..i]);
    forall x | x in Under(svcs, p + [kids[i]]) && x in UnderKids(svcs, p, kids[..i]) ensures false {
      var k :| k in kids[..i] && x in Under(svcs, p + [k]);
      SiblingsAreApart(svcs, p, k, kids[i]);
    }
    assert kids[..i + 1][..i] == kids[..i];
  }

  lemma NodeIsAboveItsKids(svcs: seq<Service>, p: seq<string>, kids: seq<string>)
    requires RootPath(Index(svcs), p)
    ensures Last(p) !in UnderKids(svcs, p, kids)
  {
    hide Under;
    UnderKidsIs(svcs, p, kids);
    forall k ensures Last(p) !in Under(svcs, p + [k]) {
      SiblingsAreApart(svcs, p, k + "'", k);
    }
  }

  lemma OneMoreChild(g: Grades, h: Grades, kids: seq<string>, i: nat)
    requires i < |kids| && g.Keys !! h.Keys && kids[i] in h
    requires forall k :: k in kids[..i] ==> k in g
    ensures forall k :: k in kids[..i + 1] ==> k in g + h
    ensures StatesOf(g + h, kids[..i + 1]) == StatesOf(g, kids[..i]) + [h[kids[i]].state]
    ensures CausesOf(g + h, kids[..i + 1]) == CausesOf(g, kids[..i]) + h[kids[i]].causes
  {
    StatesDepend(g, g + h, kids[..i]);
    assert kids[..i + 1][..i] == kids[..i];
  }

  lemma DoneMerges(nodes: Nodes, g: Grades, h: Grades)
    requires Done(nodes, g) && Done(nodes, h)
    ensures Done(nodes, g + h)
  {}

  lemma NothingDoneYet(svcs: seq<Service>, bound: Bindings, nodes: Nodes, path: seq<string>)
    ensures UnderKids(svcs, path, []) == {}
    ensures Graded(svcs, bound, map[]) && Done(nodes, map[])
    ensures StatesOf(map[], []) == [] && CausesOf(map[], []) == []
  {}

  lemma TopIsDone(nodes: Nodes, g: Grades, id: string, top: Grade)
    requires id in nodes && Done(nodes, g)
    requires nodes[id].evaluations == 1 && nodes[id].state == top.state && nodes[id].causes == top.causes
    ensures Done(nodes, g[id := top])
  {}

  lemma TopIsGraded(svcs: seq<Service>, bound: Bindings, g: Grades, id: string, top: Grade)
    requires id in Index(svcs) && id !in g && Graded(svcs, bound, g)
    requires forall k :: k in Kids(svcs, id) ==> k in g
    requires top ==
      if Kids(svcs, id) == [] then
        Grade(Aggregated(Index(svcs)[id], LeafStates(bound(id))), FirstFive(Troubled(bound(id))))
      else
        Grade(Aggregated(Index(svcs)[id], StatesOf(g, Kids(svcs, id))), FirstFive(CausesOf(g, Kids(svcs, id))))
    ensures Graded(svcs, bound, g[id := top])
  {
    var h := g[id := top];
    forall x | x in h ensures Follows(svcs, bound, h, x) {
      if x != id { assert Follows(svcs, bound, g, x); }
      StatesDepend(g, h, Kids(svcs, x));
    }
  }

  lemma PendingIsHereditary(nodes: Nodes, all: set<string>, part: set<string>)
    requires Pending(nodes, all) && part <= all
    ensures Pending(nodes, part)
  {}

  lemma StartsPending(svcs: seq<Service>, nodes: Nodes, path: seq<string>)
    requires UniqueIds(svcs) && RootPath(Index(svcs), path) && Last(path) in nodes && Linked(svcs, nodes)
    requires Pending(nodes, Under(svcs, path))
    ensures nodes[Last(path)].evaluations == 0 && nodes[Last(path)].causes == []
    ensures nodes[Last(path)].service.id == Last(path)
    ensures Last(path) in Index(svcs) && nodes[Last(path)].service == Index(svcs)[Last(path)]
    ensures OneNodeEach(nodes) && HasChildren(nodes, Last(path), Kids(svcs, Last(path)))
    ensures Tops(svcs, path) == Kids(svcs, Last(path)) && Trunk(svcs, path) && path != []
  {
    UnderItself(svcs, path);
    IndexHasAll(svcs);
  }

  lemma RegionExists(nodes: Nodes, ids: set<string>)
    ensures Region(nodes, ids) <= nodes.Values
  {}

  lemma RegionGrows(nodes: Nodes, part: set<string>, all: set<string>)
    requires part <= all
    ensures Region(nodes, part) <= Region(nodes, all)
  {}

  lemma NodeInRegion(nodes: Nodes, id: string, ids: set<string>)
    requires id in nodes && OneNodeEach(nodes)
    ensures nodes[id] in Region(nodes, ids) <==> id in ids
  {}

  // ---- evaluation -------------------------------------------------------------------------------

  /** Grades the node at the end of `path` and everything below it, each node once. */
  method Eval(n: BSNode, bound: Bindings, ghost svcs: seq<Service>, ghost nodes: Nodes, ghost path: seq<string>)
    returns (state: int, ghost g: Grades)
    requires UniqueIds(svcs) && Linked(svcs, nodes)
    requires RootPath(Index(svcs), path) && Last(path) in nodes && n == nodes[Last(path)]
    requires Pending(nodes, Under(svcs, path))
    modifies Region(nodes, Under(svcs, path))
    ensures Linked(svcs, nodes)
    ensures g.Keys == Under(svcs, path) && Graded(svcs, bound, g) && Done(nodes, g)
    ensures Last(path) in g && state == g[Last(path)].state
    decreases |Index(svcs)| - |path|, 2
  {
    hide *;
    ghost var id, kids := Last(path), Tops(svcs, path);
    ghost var below := UnderKids(svcs, path, kids);
    StartsPending(svcs, nodes, path);
    UnderDecomposes(svcs, path);
    NodeIsAboveItsKids(svcs, path, kids);
    NodeInRegion(nodes, id, Under(svcs, path));
    NodeInRegion(nodes, id, below);
    RegionGrows(nodes, below, Under(svcs, path));
    PendingIsHereditary(nodes, Under(svcs, path), below);
    ApartInTheHeap(nodes, {id}, below);
    NodeInRegion(nodes, id, {id});
    n.evaluations := n.evaluations + 1;
    g := map[];
    if |n.children| == 0 {
      var states, causes := ReadLeaf(bound(n.service.id));
      n.causes := causes;
      n.state := Aggregate(n.service, states);
      NothingDoneYet(svcs, bound, nodes, path);
    } else {
      var childStates;
      childStates, g := EvalChildren(n, bound, svcs, nodes, path);
      RegionExists(nodes, g.Keys);
      assert n !in Region(nodes, g.Keys);
      n.causes := FirstFive(n.causes);
      assert Done(nodes, g);
      n.state := Aggregate(n.service, childStates);
      assert Done(nodes, g);
    }
    state := n.state;
    TopIsGraded(svcs, bound, g, id, Grade(n.state, n.causes));
    TopIsDone(nodes, g, id, Grade(n.state, n.causes));
    g := g[id := Grade(n.state, n.causes)];
  }

  method EvalChildren(n: BSNode, bound: Bindings, ghost svcs: seq<Service>, ghost nodes: Nodes, ghost path: seq<string>)
    returns (childStates: seq<int>, ghost g: Grades)
    requires UniqueIds(svcs) && Linked(svcs, nodes)
    requires RootPath(Index(svcs), path) && Last(path) in nodes && n == nodes[Last(path)]
    requires n.causes == [] && Pending(nodes, UnderKids(svcs, path, Tops(svcs, path)))
    modifies Region(nodes, UnderKids(svcs, path, Tops(svcs, path))), n`causes
    ensures Linked(svcs, nodes)
    ensures g.Keys == UnderKids(svcs, path, Tops(svcs, path)) && Graded(svcs, bound, g) && Done(nodes, g)
    ensures forall k :: k in Tops(svcs, path) ==> k in g
    ensures childStates == StatesOf(g, Tops(svcs, path))
    ensures n.causes == CausesOf(g, Tops(svcs, path))
    decreases |Index(svcs)| - |path|, 1
  {
    hide *;
    ghost var kids := Tops(svcs, path);
    ghost var todo := UnderKids(svcs, path, kids);
    childStates, g := [], map[];
    Begin(svcs, bound, nodes, path);
    TopsAreKids(svcs, path);
    LinkedFacts(svcs, nodes, Last(path));
    for i := 0 to |n.children|
      invariant Linked(svcs, nodes) && n.children == old(n.children)
      invariant PartlyDone(svcs, bound, nodes, path, i, g, todo)
      invariant forall k :: k in kids[..i] ==> k in g
      invariant childStates == StatesOf(g, kids[..i])
      invariant n.causes == CausesOf(g, kids[..i])
    {
      var s;
      s, g, todo := EvalChild(n, i, bound, svcs, nodes, path, g, todo);
      childStates := childStates + [s];
    }
    Finish(svcs, bound, nodes, path, g, todo);
  }

  lemma Begin(svcs: seq<Service>, bound: Bindings, nodes: Nodes, path: seq<string>)
    requires Pending(nodes, UnderKids(svcs, path, Tops(svcs, path)))
    ensures var kids := Tops(svcs, path);
      && kids[..0] == []
      && PartlyDone(svcs, bound, nodes, path, 0, map[], UnderKids(svcs, path, kids))
      && StatesOf(map[], []) == [] && CausesOf(map[], []) == []
  {
    assert Tops(svcs, path)[..0] == [];
  }

  lemma Finish(svcs: seq<Service>, bound: Bindings, nodes: Nodes, path: seq<string>, g: Grades, todo: set<string>)
    requires PartlyDone(svcs, bound, nodes, path, |Tops(svcs, path)|, g, todo)
    ensures var kids := Tops(svcs, path);
      && kids[..|kids|] == kids
      && g.Keys == UnderKids(svcs, path, kids) && Graded(svcs, bound, g) && Done(nodes, g)
      && forall k :: k in kids ==> k in g
  {
    hide Graded, Done, Pending, UnderKids, Kids;
    var kids := Tops(svcs, path);
    assert kids[..|kids|] == kids;
  }

  /** Between two children: `g` holds the grades of the first `i` subtrees, `todo` the other subtrees. */
  ghost predicate PartlyDone(svcs: seq<Service>, bound: Bindings, nodes: Nodes, path: seq<string>, i: nat,
                             g: Grades, todo: set<string>)
    reads Region(nodes, g.Keys), Region(nodes, todo)
  {
    Progress(svcs, bound, path, i, g, todo) && Done(nodes, g) && Pending(nodes, todo)
  }

  ghost predicate Progress(svcs: seq<Service>, bound: Bindings, path: seq<string>, i: nat,
                           g: Grades, todo: set<string>)
  {
    var kids := Tops(svcs, path);
    && i <= |kids|
    && g.Keys == UnderKids(svcs, path, kids[..i])
    && g.Keys !! todo && g.Keys + todo == UnderKids(svcs, path, kids)
    && Graded(svcs, bound, g)
    && forall k :: k in kids[..i] ==> k in g
  }

  method EvalChild(n: BSNode, i: nat, bound: Bindings, ghost svcs: seq<Service>, ghost nodes: Nodes,
                   ghost path: seq<string>, ghost g0: Grades, ghost todo0: set<string>)
    returns (state: int, ghost g: Grades, ghost todo: set<string>)
    requires UniqueIds(svcs) && Linked(svcs, nodes)
    requires RootPath(Index(svcs), path) && Last(path) in nodes && n == nodes[Last(path)]
    requires i < |Tops(svcs, path)| && PartlyDone(svcs, bound, nodes, path, i, g0, todo0)
    modifies Region(nodes, UnderKids(svcs, path, Tops(svcs, path))), n`causes
    ensures Linked(svcs, nodes) && n.children == old(n.children)
    ensures PartlyDone(svcs, bound, nodes, path, i + 1, g, todo)
    ensures forall k :: k in Tops(svcs, path)[..i] ==> k in g0
    ensures forall k :: k in Tops(svcs, path)[..i + 1] ==> k in g
    ensures StatesOf(g, Tops(svcs, path)[..i + 1]) == StatesOf(g0, Tops(svcs, path)[..i]) + [state]
    ensures old(n.causes) == CausesOf(g0, Tops(svcs, path)[..i]) ==>
      n.causes == CausesOf(g, Tops(svcs, path)[..i + 1])
    decreases |Index(svcs)| - |path|, 0
  {
    hide *;
    ghost var kids := Tops(svcs, path);
    ghost var down, mine := path + [kids[i]], Under(svcs, path + [kids[i]]);
    TopsAreKids(svcs, path);
    BeforeChild(svcs, bound, nodes, path, i, g0, todo0);
    ParentIsApart(svcs, bound, nodes, path, i, g0, todo0);
    label before:
    ghost var h;
    state, h := Eval(n.children[i], bound, svcs, nodes, down);
    assert forall o :: o in Region(nodes, g0.Keys) ==> unchanged@before(o);
    assert forall o :: o in Region(nodes, todo0 - mine) ==> unchanged@before(o);
    assert Done(nodes, g0) && Pending(nodes, todo0 - mine);
    DoneCarries(nodes, h, kids[i]);
    assert n !in Region(nodes, h.Keys);
    n.causes := n.causes + n.children[i].causes;
    assert Done(nodes, g0) && Done(nodes, h) && Pending(nodes, todo0 - mine);
    AfterChild(svcs, bound, nodes, path, i, g0, h, todo0);
    g, todo := g0 + h, todo0 - mine;
  }

  /** What the call on the i-th subtree needs, and what it leaves alone. */
  lemma BeforeChild(svcs: seq<Service>, bound: Bindings, nodes: Nodes, path: seq<string>, i: nat,
                    g: Grades, todo: set<string>)
    requires UniqueIds(svcs) && Linked(svcs, nodes) && Trunk(svcs, path)
    requires i < |Tops(svcs, path)| && PartlyDone(svcs, bound, nodes, path, i, g, todo)
    ensures var kid := Tops(svcs, path)[i];
      var mine := Under(svcs, path + [kid]);
      && kid in nodes && RootPath(Index(svcs), path + [kid]) && Last(path + [kid]) == kid
      && |path| + 1 <= |Index(svcs)|
      && Progress(svcs, bound, path, i, g, todo)
      && Done(nodes, g) && Pending(nodes, mine) && Pending(nodes, todo - mine)
      && Region(nodes, mine) !! Region(nodes, g.Keys) && Region(nodes, mine) !! Region(nodes, todo - mine)
      && Region(nodes, g.Keys) <= nodes.Values && Region(nodes, todo - mine) <= nodes.Values
      && Region(nodes, mine) <= Region(nodes, UnderKids(svcs, path, Tops(svcs, path)))
  {
    hide Under, UnderKids, UniqueIds, RootPath, Trunk, Tops, Graded, OneNodeEach, Region, Done, Pending, Index,
      HasChildren;
    var kids := Tops(svcs, path);
    var mine := Under(svcs, path + [kids[i]]);
    KidIsNext(svcs, path, i);
    PathFits(Index(svcs), path + [kids[i]]);
    PathNodesExist(Index(svcs), path + [kids[i]]);
    ForkPending(nodes, todo, mine, g.Keys);
    assert todo + g.Keys == UnderKids(svcs, path, kids);
    RegionExists(nodes, g.Keys);
    RegionExists(nodes, todo - mine);
  }

  /** The node itself is none of those. */
  lemma ParentIsApart(svcs: seq<Service>, bound: Bindings, nodes: Nodes, path: seq<string>, i: nat,
                      g: Grades, todo: set<string>)
    requires UniqueIds(svcs) && Linked(svcs, nodes) && RootPath(Index(svcs), path) && Last(path) in nodes
    requires i < |Tops(svcs, path)| && Progress(svcs, bound, path, i, g, todo)
    ensures var kid := Tops(svcs, path)[i];
      var mine := Under(svcs, path + [kid]);
      && kid in nodes && i < |nodes[Last(path)].children| && nodes[Last(path)].children[i] == nodes[kid]
      && nodes[Last(path)] !in Region(nodes, mine) && nodes[Last(path)] !in Region(nodes, todo - mine)
      && nodes[Last(path)] !in Region(nodes, g.Keys)
  {
    var kids := Kids(svcs, Last(path));
    var mine := Under(svcs, path + [kids[i]]);
    hide Under, UnderKids, UniqueIds, RootPath, Graded, OneNodeEach, Region, Linked, Kids, Index;
    LinkedFacts(svcs, nodes, Last(path));
    NodeIsAboveItsKids(svcs, path, kids);
    KidIsNext(svcs, path, i);
    NodeInRegion(nodes, Last(path), mine);
    NodeInRegion(nodes, Last(path), todo - mine);
    NodeInRegion(nodes, Last(path), g.Keys);
  }

  lemma TopsAreKids(svcs: seq<Service>, path: seq<string>)
    requires RootPath(Index(svcs), path)
    ensures Tops(svcs, path) == Kids(svcs, Last(path)) && Trunk(svcs, path)
  {}

  lemma AfterChild(svcs: seq<Service>, bound: Bindings, nodes: Nodes, path: seq<string>, i: nat,
                   g: Grades, h: Grades, todo: set<string>)
    requires UniqueIds(svcs) && Trunk(svcs, path) && i < |Tops(svcs, path)|
    requires var kids := Tops(svcs, path);
      var mine := Under(svcs, path + [kids[i]]);
      && Progress(svcs, bound, path, i, g, todo)
      && h.Keys == mine && kids[i] in h && Graded(svcs, bound, h)
      && Done(nodes, g) && Done(nodes, h) && Pending(nodes, todo - mine)
    ensures var kids := Tops(svcs, path);
      && PartlyDone(svcs, bound, nodes, path, i + 1, g + h, todo - Under(svcs, path + [kids[i]]))
      && (forall k :: k in kids[..i] ==> k in g) && (forall k :: k in kids[..i + 1] ==> k in g + h)
      && StatesOf(g + h, kids[..i + 1]) == StatesOf(g, kids[..i]) + [h[kids[i]].state]
      && CausesOf(g + h, kids[..i + 1]) == CausesOf(g, kids[..i]) + h[kids[i]].causes
  {
    hide Under, UnderKids, UniqueIds, Graded, Done, Pending, StatesOf, CausesOf, Tops, Trunk, Index;
    var kids := Tops(svcs, path);
    KidIsNext(svcs, path, i);
    OneMoreChild(g, h, kids, i);
    GradesMerge(svcs, bound, g, h);
    DoneMerges(nodes, g, h);
  }

  lemma LinkedFacts(svcs: seq<Service>, nodes: Nodes, id: string)
    requires Linked(svcs, nodes) && id in nodes
    ensures nodes.Keys == Index(svcs).Keys && OneNodeEach(nodes)
    ensures |nodes[id].children| == |Kids(svcs, id)|
    ensures forall i :: 0 <= i < |Kids(svcs, id)| ==>
      Kids(svcs, id)[i] in nodes && nodes[id].children[i] == nodes[Kids(svcs, id)[i]]
  {
    assert HasChildren(nodes, id, Kids(svcs, id));
  }

  lemma DoneCarries(nodes: Nodes, g: Grades, id: string)
    requires Done(nodes, g) && id in g
    ensures id in nodes && nodes[id].causes == g[id].causes
  {}

  /** Splits what is pending into the next subtree and the rest, apart in the heap from what is done. */
  lemma ForkPending(nodes: Nodes, todo: set<string>, mine: set<string>, done: set<string>)
    requires OneNodeEach(nodes) && Pending(nodes, todo) && mine <= todo && todo !! done
    ensures Pending(nodes, mine) && Pending(nodes, todo - mine)
    ensures Region(nodes, mine) !! Region(nodes, done)
    ensures Region(nodes, mine) !! Region(nodes, todo - mine)
    ensures Region(nodes, mine) <= Region(nodes, todo + done)
  {}

  // ---- the forest -------------------------------------------------------------------------------

  /** `roots` are the nodes of the unattached services, in list order. */
  ghost predicate AreRoots(nodes: Nodes, roots: seq<BSNode>, ids: seq<string>) {
    |roots| == |ids| && forall i :: 0 <= i < |ids| ==> ids[i] in nodes && roots[i] == nodes[ids[i]]
  }

  method CreateNodes(svcs: seq<Service>) returns (nodes: Nodes)
    requires UniqueIds(svcs)
    ensures forall id :: id in nodes ==> fresh(nodes[id])
    ensures nodes.Keys == Index(svcs).Keys && OneNodeEach(nodes)
    ensures forall id :: id in nodes ==> nodes[id].service == Index(svcs)[id] && nodes[id].children == []
    ensures forall id :: id in nodes ==> nodes[id].evaluations == 0 && nodes[id].causes == []
  {
    nodes := map[];
    for i := 0 to |svcs|
      invariant forall id :: id in nodes ==> fresh(nodes[id])
      invariant nodes.Keys == Index(svcs[..i]).Keys && OneNodeEach(nodes)
      invariant forall id :: id in nodes ==> nodes[id].service == Index(svcs[..i])[id] && nodes[id].children == []
      invariant forall id :: id in nodes ==> nodes[id].evaluations == 0 && nodes[id].causes == []
    {
      assert svcs[..i + 1][..i] == svcs[..i];
      var n := new BSNode(svcs[i]);
      nodes := nodes[svcs[i].id := n];
    }
    assert svcs[..|svcs|] == svcs;
  }

  lemma KidsOfOneMore(svcs: seq<Service>, i: nat, id: string)
    requires i < |svcs|
    ensures Kids(svcs[..i + 1], id) ==
      Kids(svcs[..i], id) + if svcs[i].parentId == id && id != "" then [svcs[i].id] else []
    ensures RootIds(svcs[..i + 1], Index(svcs)) ==
      RootIds(svcs[..i], Index(svcs))
      + if svcs[i].parentId != "" && svcs[i].parentId in Index(svcs) then [] else [svcs[i].id]
  {
    assert svcs[..i + 1][..i] == svcs[..i];
  }

  /** The children found among the first `i` services are attached. */
  ghost predicate LinkedUpTo(svcs: seq<Service>, nodes: Nodes, i: nat)
    requires i <= |svcs|
    reads nodes.Values`children
  {
    forall id :: id in nodes ==> HasChildren(nodes, id, Kids(svcs[..i], id))
  }

  method LinkNodes(svcs: seq<Service>, nodes: Nodes) returns (roots: seq<BSNode>)
    requires UniqueIds(svcs) && nodes.Keys == Index(svcs).Keys && OneNodeEach(nodes)
    requires forall id :: id in nodes ==> nodes[id].children == []
    modifies nodes.Values`children
    ensures forall id :: id in nodes ==> HasChildren(nodes, id, Kids(svcs, id))
    ensures AreRoots(nodes, roots, RootIds(svcs, Index(svcs)))
  {
    hide Index, UniqueIds, Kids, RootIds;
    roots := [];
    IndexHasAll(svcs);
    NoKidsYet(svcs);
    for i := 0 to |svcs|
      invariant LinkedUpTo(svcs, nodes, i)
      invariant AreRoots(nodes, roots, RootIds(svcs[..i], Index(svcs)))
    {
      KidsOfOneMore(svcs, i, "");
      if svcs[i].parentId != "" && svcs[i].parentId in nodes {
        Attach(svcs, i, nodes, nodes[svcs[i].parentId]);
      } else {
        NothingAttached(svcs, i, nodes);
        roots := roots + [nodes[svcs[i].id]];
      }
    }
    assert svcs[..|svcs|] == svcs;
  }

  lemma NothingAttached(svcs: seq<Service>, i: nat, nodes: Nodes)
    requires i < |svcs| && LinkedUpTo(svcs, nodes, i)
    requires svcs[i].parentId == "" || svcs[i].parentId !in nodes
    ensures LinkedUpTo(svcs, nodes, i + 1)
  {
    hide Kids, Index, RootIds;
    forall id | id in nodes ensures HasChildren(nodes, id, Kids(svcs[..i + 1], id)) {
      KidsOfOneMore(svcs, i, id);
    }
  }

  method Attach(svcs: seq<Service>, i: nat, nodes: Nodes, parent: BSNode)
    requires i < |svcs| && LinkedUpTo(svcs, nodes, i) && OneNodeEach(nodes)
    requires svcs[i].id in nodes && svcs[i].parentId != "" && svcs[i].parentId in nodes
    requires parent == nodes[svcs[i].parentId]
    modifies parent`children
    ensures LinkedUpTo(svcs, nodes, i + 1)
  {
    hide Kids, Index, RootIds;
    label before:
    parent.children := parent.children + [nodes[svcs[i].id]];
    forall id | id in nodes ensures HasChildren(nodes, id, Kids(svcs[..i + 1], id)) {
      KidsOfOneMore(svcs, i, id);
      assert old@before(HasChildren(nodes, id, Kids(svcs[..i], id)));
    }
  }

  lemma NoKidsYet(svcs: seq<Service>)
    ensures RootIds(svcs[..0], Index(svcs)) == []
    ensures forall id :: Kids(svcs[..0], id) == []
  {}

  method Build(svcs: seq<Service>) returns (roots: seq<BSNode>, nodes: Nodes)
    requires UniqueIds(svcs)
    ensures forall id :: id in nodes ==> fresh(nodes[id])
    ensures Linked(svcs, nodes) && AreRoots(nodes, roots, Tops(svcs, []))
    ensures forall id :: id in nodes ==> nodes[id].evaluations == 0 && nodes[id].causes == []
  {
    nodes := CreateNodes(svcs);
    roots := LinkNodes(svcs, nodes);
  }

  /** One tree after the other, in list order. */
  method EvalForest(roots: seq<BSNode>, bound: Bindings, ghost svcs: seq<Service>, ghost nodes: Nodes)
    returns (ghost g: Grades)
    requires UniqueIds(svcs) && Linked(svcs, nodes) && AreRoots(nodes, roots, Tops(svcs, []))
    requires Pending(nodes, UnderKids(svcs, [], Tops(svcs, [])))
    modifies Region(nodes, UnderKids(svcs, [], Tops(svcs, [])))
    ensures Linked(svcs, nodes)
    ensures g.Keys == UnderKids(svcs, [], Tops(svcs, [])) && Graded(svcs, bound, g) && Done(nodes, g)
  {
    hide *;
    ghost var ids := Tops(svcs, []);
    ghost var todo := UnderKids(svcs, [], ids);
    g := map[];
    Begin(svcs, bound, nodes, []);
    RootsFacts(nodes, roots, ids);
    for i := 0 to |roots|
      invariant Linked(svcs, nodes) && PartlyDone(svcs, bound, nodes, [], i, g, todo)
    {
      g, todo := EvalRoot(roots[i], i, bound, svcs, nodes, g, todo);
    }
    Finish(svcs, bound, nodes, [], g, todo);
  }

  lemma RootsFacts(nodes: Nodes, roots: seq<BSNode>, ids: seq<string>)
    requires AreRoots(nodes, roots, ids)
    ensures |roots| == |ids| && forall i :: 0 <= i < |ids| ==> ids[i] in nodes && roots[i] == nodes[ids[i]]
  {}

  method EvalRoot(root: BSNode, i: nat, bound: Bindings, ghost svcs: seq<Service>, ghost nodes: Nodes,
                  ghost g0: Grades, ghost todo0: set<string>)
    returns (ghost g: Grades, ghost todo: set<string>)
    requires UniqueIds(svcs) && Linked(svcs, nodes)
    requires i < |Tops(svcs, [])| && Tops(svcs, [])[i] in nodes && root == nodes[Tops(svcs, [])[i]]
    requires PartlyDone(svcs, bound, nodes, [], i, g0, todo0)
    modifies Region(nodes, UnderKids(svcs, [], Tops(svcs, [])))
    ensures Linked(svcs, nodes)
    ensures PartlyDone(svcs, bound, nodes, [], i + 1, g, todo)
  {
    hide *;
    ghost var id := Tops(svcs, [])[i];
    ghost var mine := Under(svcs, [] + [id]);
    EmptyTrunk(svcs);
    BeforeChild(svcs, bound, nodes, [], i, g0, todo0);
    label before:
    var state;
    ghost var h;
    state, h := Eval(root, bound, svcs, nodes, [] + [id]);
    assert forall o :: o in Region(nodes, g0.Keys) ==> unchanged@before(o);
    assert forall o :: o in Region(nodes, todo0 - mine) ==> unchanged@before(o);
    assert Done(nodes, g0) && Pending(nodes, todo0 - mine);
    AfterChild(svcs, bound, nodes, [], i, g0, h, todo0);
    g, todo := g0 + h, todo0 - mine;
  }

  lemma EmptyTrunk(svcs: seq<Service>)
    ensures Trunk(svcs, [])
  {}

  /** Builds the forest and grades it.  Exactly the services whose parent chain ends at a root are
      evaluated, each once; services on or under a parent cycle are not part of the result. */
  method EvaluateTree(svcs: seq<Service>, bound: Bindings)
    returns (roots: seq<BSNode>, ghost nodes: Nodes, ghost g: Grades)
    requires UniqueIds(svcs)
    ensures Linked(svcs, nodes) && AreRoots(nodes, roots, Tops(svcs, []))
    ensures forall id :: id in g <==> Rooted(Index(svcs), id)
    ensures Graded(svcs, bound, g) && Done(nodes, g)
    ensures forall id :: id in nodes && !Rooted(Index(svcs), id) ==> nodes[id].evaluations == 0
  {
    hide *;
    roots, nodes := Build(svcs);
    ghost var all := UnderKids(svcs, [], Tops(svcs, []));
    TheForest(svcs);
    AllPending(svcs, nodes, all);
    g := EvalForest(roots, bound, svcs, nodes);
  }

  lemma AllPending(svcs: seq<Service>, nodes: Nodes, ids: set<string>)
    requires Linked(svcs, nodes)
    requires forall id :: id in nodes ==> nodes[id].evaluations == 0 && nodes[id].causes == []
    ensures Pending(nodes, ids)
    ensures Region(nodes, ids) <= nodes.Values
    ensures forall id :: id in nodes && id !in ids ==> nodes[id] !in Region(nodes, ids)
  {}

  lemma TheForest(svcs: seq<Service>)
    requires UniqueIds(svcs)
    ensures Trunk(svcs, [])
    ensures UnderKids(svcs, [], Tops(svcs, [])) == Under(svcs, [])
    ensures forall id :: id in UnderKids(svcs, [], Tops(svcs, [])) <==> Rooted(Index(svcs), id)
  {
    UnderDecomposes(svcs, []);
    assert forall id :: id in Under(svcs, []) <==> Rooted(Index(svcs), id);
  }
}
