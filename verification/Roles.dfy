/** Role expansion (internal/auth/auth.go): the permissions of a list of granted roles and of the roles
    they include, by a depth-first walk with a shared `seen` set and a depth cut-off.

    `Walk` is the walk on values; the class carries it out the way the code does, through captured
    variables.  What the walk visits is then compared with reachability along includes.

    A role is referred to by its name or by its identifier.  The walk and its `seen` set work on references;
    what that means for stored roles is a section of its own. */
module Roles {
  import opened Basics

  const MAX_DEPTH := 8

  datatype Role = Role(permissions: seq<string>, includes: seq<string>)

  /** The tenant's role rows by name, unset where the document does not decode, and each row's name by its
      identifier. */
  datatype Table = Table(rows: map<string, Maybe<Role>>, names: map<string, string>)

  /** The row a reference means: the one of that name, else the one with that identifier. */
  function RowOf(table: Table, ref: string): Maybe<string> {
    if ref in table.rows then Set(ref)
    else if ref in table.names && table.names[ref] in table.rows then Set(table.names[ref])
    else Unset
  }

  function LoadOne(table: Table, ref: string): Maybe<Role> {
    match RowOf(table, ref)
    case Unset => Unset
    case Set(name) => table.rows[name]
  }

  /** A name wins over an identifier, and a row that does not decode does not load. */
  lemma LoadMeans(table: Table, ref: string)
    ensures ref in table.rows ==> LoadOne(table, ref) == table.rows[ref]
    ensures ref !in table.rows && ref in table.names && table.names[ref] in table.rows ==>
      LoadOne(table, ref) == table.rows[table.names[ref]]
    ensures ref !in table.rows && (ref in table.names ==> table.names[ref] !in table.rows) ==>
      LoadOne(table, ref).Unset?
  {}

  /** What references load; one that does not load is absent. */
  type Store = map<string, Role>

  function Loaded(table: Table): Store {
    map ref | ref in table.rows.Keys + table.names.Keys && LoadOne(table, ref).Set? :: LoadOne(table, ref).value
  }

  lemma LoadedIs(table: Table, ref: string)
    ensures ref in Loaded(table) <==> LoadOne(table, ref).Set?
    ensures ref in Loaded(table) ==> Loaded(table)[ref] == LoadOne(table, ref).value
  {}

  /** References tried so far, and those that loaded and contributed, in order. */
  datatype Trail = Trail(seen: set<string>, order: seq<string>)

  function Walk(roles: Store, names: seq<string>, depth: nat, t: Trail): (r: Trail)
    decreases MAX_DEPTH + 1 - depth, |names|
  {
    if depth > MAX_DEPTH || names == [] then t
    else if names[0] in t.seen then Walk(roles, names[1..], depth, t)
    else if names[0] !in roles then Walk(roles, names[1..], depth, t.(seen := t.seen + {names[0]}))
    else
      var entered := Trail(t.seen + {names[0]}, t.order + [names[0]]);
      var below := Walk(roles, roles[names[0]].includes, depth + 1, entered);
      Walk(roles, names[1..], depth, below)
  }

  /** The references whose roles' permissions the expansion of `granted` returns. */
  function Expanded(roles: Store, granted: seq<string>): seq<string> {
    Walk(roles, granted, 0, Trail({}, [])).order
  }

  function PermissionsOf(roles: Store, order: seq<string>): seq<string>
    requires forall n :: n in order ==> n in roles
  {
    if order == [] then []
    else PermissionsOf(roles, order[..|order| - 1]) + roles[order[|order| - 1]].permissions
  }

  // ---- reachability -----------------------------------------------------------------------------

  /** A chain of stored roles from a granted one along includes. */
  ghost predicate IncludePath(roles: Store, granted: seq<string>, p: seq<string>) {
    && 0 < |p| && p[0] in granted
    && (forall i :: 0 <= i < |p| ==> p[i] in roles)
    && forall i :: 0 < i < |p| ==> p[i] in roles[p[i - 1]].includes
  }

  ghost predicate Distinct(p: seq<string>) {
    forall i, j :: 0 <= i < j < |p| ==> p[i] != p[j]
  }

  ghost predicate Reachable(roles: Store, granted: seq<string>, name: string) {
    exists p :: IncludePath(roles, granted, p) && p[|p| - 1] == name
  }

  /** No chain of includes without repetition has more than eight edges. */
  ghost predicate Shallow(roles: Store, granted: seq<string>) {
    forall p :: IncludePath(roles, granted, p) && Distinct(p) ==> |p| - 1 <= MAX_DEPTH
  }

  // ---- the walk is orderly ----------------------------------------------------------------------

  /** Each reference contributes at most once, and exactly those tried that load do. */
  ghost predicate Orderly(roles: Store, t: Trail) {
    && Distinct(t.order)
    && forall n :: n in t.order <==> n in t.seen && n in roles
  }

  lemma {:induction false} WalkIsOrderly(roles: Store, names: seq<string>, depth: nat, t: Trail)
    requires Orderly(roles, t)
    ensures Orderly(roles, Walk(roles, names, depth, t))
    ensures t.seen <= Walk(roles, names, depth, t).seen
    decreases MAX_DEPTH + 1 - depth, |names|
  {
    if depth <= MAX_DEPTH && names != [] {
      var n := names[0];
      if n in t.seen {
        WalkIsOrderly(roles, names[1..], depth, t);
      } else if n !in roles {
        WalkIsOrderly(roles, names[1..], depth, t.(seen := t.seen + {n}));
      } else {
        var entered := Trail(t.seen + {n}, t.order + [n]);
        WalkIsOrderly(roles, roles[n].includes, depth + 1, entered);
        WalkIsOrderly(roles, names[1..], depth, Walk(roles, roles[n].includes, depth + 1, entered));
      }
    }
  }

  // ---- soundness --------------------------------------------------------------------------------

  ghost predicate AllReachable(roles: Store, granted: seq<string>, names: seq<string>) {
    forall n :: n in names && n in roles ==> Reachable(roles, granted, n)
  }

  lemma IncludesAreReachable(roles: Store, granted: seq<string>, name: string)
    requires name in roles && Reachable(roles, granted, name)
    ensures AllReachable(roles, granted, roles[name].includes)
  {
    var p :| IncludePath(roles, granted, p) && p[|p| - 1] == name;
    forall m | m in roles[name].includes && m in roles ensures Reachable(roles, granted, m) {
      var q := p + [m];
      assert IncludePath(roles, granted, q);
    }
  }

  lemma {:induction false} WalkIsSound(roles: Store, granted: seq<string>, names: seq<string>, depth: nat, t: Trail)
    requires AllReachable(roles, granted, names)
    requires forall n :: n in t.order ==> Reachable(roles, granted, n)
    ensures forall n :: n in Walk(roles, names, depth, t).order ==> Reachable(roles, granted, n)
    decreases MAX_DEPTH + 1 - depth, |names|
  {
    if depth <= MAX_DEPTH && names != [] {
      var n, rest := names[0], names[1..];
      assert AllReachable(roles, granted, rest);
      if n in t.seen {
        WalkIsSound(roles, granted, rest, depth, t);
      } else if n !in roles {
        WalkIsSound(roles, granted, rest, depth, t.(seen := t.seen + {n}));
      } else {
        var entered := Trail(t.seen + {n}, t.order + [n]);
        IncludesAreReachable(roles, granted, n);
        WalkIsSound(roles, granted, roles[n].includes, depth + 1, entered);
        WalkIsSound(roles, granted, rest, depth, Walk(roles, roles[n].includes, depth + 1, entered));
      }
    }
  }

  // ---- completeness -----------------------------------------------------------------------------

  ghost predicate AllSeen(roles: Store, names: seq<string>, seen: set<string>) {
    forall n :: n in names && n in roles ==> n in seen
  }

  /** Roles the walk has entered and left: all their stored includes are seen. */
  ghost predicate Settled(roles: Store, t: Trail, stack: seq<string>) {
    forall n :: n in t.seen && n in roles && n !in stack ==> AllSeen(roles, roles[n].includes, t.seen)
  }

  /** The roles being expanded: a chain without repetition whose length is the depth. */
  ghost predicate OnStack(roles: Store, granted: seq<string>, stack: seq<string>, depth: nat, t: Trail) {
    && |stack| == depth && Distinct(stack)
    && (forall n :: n in stack ==> n in t.seen)
    && (stack != [] ==> IncludePath(roles, granted, stack))
  }

  /** What the walk is looking at: the grants at the bottom, the includes of the top otherwise. */
  ghost predicate Offered(roles: Store, granted: seq<string>, stack: seq<string>, names: seq<string>) {
    forall n :: n in names ==>
      if stack == [] then n in granted
      else stack[|stack| - 1] in roles && n in roles[stack[|stack| - 1]].includes
  }

  /** At the cut-off nothing new is in sight: one more role would make a chain of nine edges. */
  lemma CutOffIsHarmless(roles: Store, granted: seq<string>, stack: seq<string>, names: seq<string>, t: Trail)
    requires Shallow(roles, granted)
    requires OnStack(roles, granted, stack, MAX_DEPTH + 1, t) && Offered(roles, granted, stack, names)
    ensures AllSeen(roles, names, t.seen)
  {
    forall n | n in names && n in roles ensures n in t.seen {
      var q := stack + [n];
      assert IncludePath(roles, granted, q);
      assert n !in stack ==> Distinct(q);
    }
  }

  lemma EnterStack(roles: Store, granted: seq<string>, stack: seq<string>, names: seq<string>, depth: nat, t: Trail)
    requires OnStack(roles, granted, stack, depth, t) && Offered(roles, granted, stack, names)
    requires names != [] && names[0] in roles && names[0] !in t.seen
    ensures OnStack(roles, granted, stack + [names[0]], depth + 1, Trail(t.seen + {names[0]}, t.order + [names[0]]))
  {
    var n, deeper := names[0], stack + [names[0]];
    assert n in names && n !in stack;
    assert IncludePath(roles, granted, deeper);
    assert forall m :: m in deeper <==> m in stack || m == n;
  }

  lemma EnterSettled(roles: Store, stack: seq<string>, n: string, t: Trail)
    requires Settled(roles, t, stack)
    ensures Settled(roles, Trail(t.seen + {n}, t.order + [n]), stack + [n])
  {
    hide AllSeen;
    forall m | m in t.seen + {n} && m in roles && m !in stack + [n]
      ensures AllSeen(roles, roles[m].includes, t.seen + {n})
    {
      assert forall x :: x in stack + [n] <==> x in stack || x == n;
      SeenGrows(roles, roles[m].includes, t.seen, t.seen + {n});
    }
  }

  lemma SeenGrows(roles: Store, names: seq<string>, seen: set<string>, more: set<string>)
    requires AllSeen(roles, names, seen) && seen <= more
    ensures AllSeen(roles, names, more)
  {}

  lemma EnterRole(roles: Store, granted: seq<string>, stack: seq<string>, names: seq<string>, depth: nat, t: Trail)
    requires OnStack(roles, granted, stack, depth, t) && Offered(roles, granted, stack, names)
    requires names != [] && names[0] in roles && names[0] !in t.seen && Settled(roles, t, stack)
    ensures var entered := Trail(t.seen + {names[0]}, t.order + [names[0]]);
      var deeper := stack + [names[0]];
      && OnStack(roles, granted, deeper, depth + 1, entered)
      && Offered(roles, granted, deeper, roles[names[0]].includes)
      && Settled(roles, entered, deeper)
  {
    hide OnStack, Settled;
    EnterStack(roles, granted, stack, names, depth, t);
    EnterSettled(roles, stack, names[0], t);
  }

  lemma LeaveRole(roles: Store, stack: seq<string>, name: string, t: Trail)
    requires name in roles && Settled(roles, t, stack + [name]) && AllSeen(roles, roles[name].includes, t.seen)
    ensures Settled(roles, t, stack)
  {}

  lemma SkipUnknown(roles: Store, stack: seq<string>, name: string, t: Trail)
    requires name !in roles && Settled(roles, t, stack)
    ensures Settled(roles, t.(seen := t.seen + {name}), stack)
  {
    forall m | m in t.seen + {name} && m in roles && m !in stack
      ensures AllSeen(roles, roles[m].includes, t.seen + {name})
    {
      assert AllSeen(roles, roles[m].includes, t.seen);
    }
  }

  lemma {:induction false} WalkIsComplete(roles: Store, granted: seq<string>, stack: seq<string>,
                                          names: seq<string>, depth: nat, t: Trail)
    requires Shallow(roles, granted) && depth <= MAX_DEPTH + 1
    requires OnStack(roles, granted, stack, depth, t) && Offered(roles, granted, stack, names)
    requires Settled(roles, t, stack)
    ensures var r := Walk(roles, names, depth, t);
      t.seen <= r.seen && AllSeen(roles, names, r.seen) && Settled(roles, r, stack)
    decreases MAX_DEPTH + 1 - depth, |names|
  {
    if depth == MAX_DEPTH + 1 {
      CutOffIsHarmless(roles, granted, stack, names, t);
    } else if names != [] {
      var n, rest := names[0], names[1..];
      assert forall m :: m in names <==> m == n || m in rest;
      assert Offered(roles, granted, stack, rest);
      if n in t.seen {
        WalkIsComplete(roles, granted, stack, rest, depth, t);
      } else if n !in roles {
        var skipped := t.(seen := t.seen + {n});
        SkipUnknown(roles, stack, n, t);
        assert OnStack(roles, granted, stack, depth, skipped);
        WalkIsComplete(roles, granted, stack, rest, depth, skipped);
      } else {
        var entered := Trail(t.seen + {n}, t.order + [n]);
        EnterRole(roles, granted, stack, names, depth, t);
        WalkIsComplete(roles, granted, stack + [n], roles[n].includes, depth + 1, entered);
        var below := Walk(roles, roles[n].includes, depth + 1, entered);
        LeaveRole(roles, stack, n, below);
        assert n in below.seen;
        assert OnStack(roles, granted, stack, depth, below);
        WalkIsComplete(roles, granted, stack, rest, depth, below);
      }
    }
  }

  lemma {:induction false} SettledHoldsPaths(roles: Store, granted: seq<string>, t: Trail, p: seq<string>)
    requires Settled(roles, t, []) && AllSeen(roles, granted, t.seen) && IncludePath(roles, granted, p)
    ensures p[|p| - 1] in t.seen
  {
    if |p| > 1 {
      var init := p[..|p| - 1];
      SettledHoldsPaths(roles, granted, t, init);
      assert AllSeen(roles, roles[init[|init| - 1]].includes, t.seen);
    }
  }

  // ---- the expansion ----------------------------------------------------------------------------

  /** Every contributing reference loads, contributes once, and is reachable from the grants. */
  lemma ExpansionIsSound(roles: Store, granted: seq<string>)
    ensures Distinct(Expanded(roles, granted))
    ensures forall n :: n in Expanded(roles, granted) ==> n in roles && Reachable(roles, granted, n)
  {
    var t0 := Trail({}, []);
    WalkIsOrderly(roles, granted, 0, t0);
    forall n | n in granted && n in roles ensures Reachable(roles, granted, n) {
      assert IncludePath(roles, granted, [n]);
    }
    WalkIsSound(roles, granted, granted, 0, t0);
  }

  /** In a shallow include graph exactly the reachable references contribute. */
  lemma ExpansionIsComplete(roles: Store, granted: seq<string>)
    requires Shallow(roles, granted)
    ensures forall n :: n in Expanded(roles, granted) <==> Reachable(roles, granted, n)
  {
    var t0 := Trail({}, []);
    var t := Walk(roles, granted, 0, t0);
    ExpansionIsSound(roles, granted);
    WalkIsOrderly(roles, granted, 0, t0);
    WalkIsComplete(roles, granted, [], granted, 0, t0);
    forall n | Reachable(roles, granted, n) ensures n in t.order {
      var p :| IncludePath(roles, granted, p) && p[|p| - 1] == n;
      SettledHoldsPaths(roles, granted, t, p);
    }
  }

  // ---- what the cut-off costs -------------------------------------------------------------------

  /** Some chain of includes of at most `n` edges leads from a grant to the role. */
  ghost predicate Within(roles: Store, granted: seq<string>, name: string, n: nat) {
    exists p :: IncludePath(roles, granted, p) && p[|p| - 1] == name && |p| - 1 <= n
  }

  ghost predicate AllWithin(roles: Store, granted: seq<string>, names: seq<string>, n: nat) {
    forall m :: m in names && m in roles ==> Within(roles, granted, m, n)
  }

  lemma IncludesAreWithin(roles: Store, granted: seq<string>, name: string, n: nat)
    requires name in roles && Within(roles, granted, name, n)
    ensures AllWithin(roles, granted, roles[name].includes, n + 1)
  {
    var p :| IncludePath(roles, granted, p) && p[|p| - 1] == name && |p| - 1 <= n;
    forall m | m in roles[name].includes && m in roles ensures Within(roles, granted, m, n + 1) {
      var q := p + [m];
      assert IncludePath(roles, granted, q) && q[|q| - 1] == m && |q| - 1 <= n + 1;
    }
  }

  lemma WithinGrows(roles: Store, granted: seq<string>, name: string, n: nat, more: nat)
    requires Within(roles, granted, name, n) && n <= more
    ensures Within(roles, granted, name, more)
  {}

  lemma {:induction false} WalkStaysNear(roles: Store, granted: seq<string>, names: seq<string>, depth: nat, t: Trail)
    requires depth <= MAX_DEPTH ==> AllWithin(roles, granted, names, depth)
    requires AllWithin(roles, granted, t.order, MAX_DEPTH)
    ensures AllWithin(roles, granted, Walk(roles, names, depth, t).order, MAX_DEPTH)
    decreases MAX_DEPTH + 1 - depth, |names|
  {
    hide IncludePath, Within;
    if depth <= MAX_DEPTH && names != [] {
      var n, rest := names[0], names[1..];
      assert forall m :: m in rest ==> m in names;
      if n in t.seen {
        WalkStaysNear(roles, granted, rest, depth, t);
      } else if n !in roles {
        WalkStaysNear(roles, granted, rest, depth, t.(seen := t.seen + {n}));
      } else {
        var entered := Trail(t.seen + {n}, t.order + [n]);
        assert Within(roles, granted, n, depth);
        WithinGrows(roles, granted, n, depth, MAX_DEPTH);
        assert forall m :: m in entered.order <==> m in t.order || m == n;
        IncludesAreWithin(roles, granted, n, depth);
        WalkStaysNear(roles, granted, roles[n].includes, depth + 1, entered);
        WalkStaysNear(roles, granted, rest, depth, Walk(roles, roles[n].includes, depth + 1, entered));
      }
    }
  }

  /** Whatever contributes is at most eight includes away from a grant: a role all of whose chains are longer is
      lost. */
  lemma ExpansionStaysNear(roles: Store, granted: seq<string>)
    ensures forall n :: n in Expanded(roles, granted) ==> n in roles && Within(roles, granted, n, MAX_DEPTH)
  {
    hide Walk;
    forall n | n in granted && n in roles ensures Within(roles, granted, n, 0) {
      assert IncludePath(roles, granted, [n]) && [n][|[n]| - 1] == n;
    }
    WalkStaysNear(roles, granted, granted, 0, Trail({}, []));
    ExpansionIsSound(roles, granted);
  }

  ghost predicate Complete(roles: Store, granted: seq<string>) {
    forall n :: Reachable(roles, granted, n) ==> n in Expanded(roles, granted)
  }

  /** Completeness lies between two conditions on the graph: no chain without repetition has more than eight edges,
      and some chain to every reachable role has at most eight. `OrderDecides` shows why neither is exact. */
  lemma CompletenessIsBracketed(roles: Store, granted: seq<string>)
    ensures Shallow(roles, granted) ==> Complete(roles, granted)
    ensures Complete(roles, granted) ==>
      forall n :: Reachable(roles, granted, n) ==> Within(roles, granted, n, MAX_DEPTH)
  {
    hide Expanded, Shallow, Reachable, Within;
    if Shallow(roles, granted) { ExpansionIsComplete(roles, granted); }
    ExpansionStaysNear(roles, granted);
  }

  /** A chain of roles, each including just the next. */
  ghost predicate Chain(roles: Store, c: seq<string>) {
    && Distinct(c)
    && (forall i :: 0 <= i < |c| ==> c[i] in roles)
    && forall i :: 0 <= i < |c| - 1 ==> roles[c[i]].includes == [c[i + 1]]
  }

  lemma {:induction false} WalkOfChain(roles: Store, c: seq<string>, k: nat, t: Trail)
    requires Chain(roles, c) && |c| > MAX_DEPTH + 1 && k <= MAX_DEPTH + 1
    requires forall i :: k <= i < |c| ==> c[i] !in t.seen
    ensures Walk(roles, [c[k]], k, t).order == t.order + c[k..MAX_DEPTH + 1]
    ensures forall n :: n in Walk(roles, [c[k]], k, t).seen <==> n in t.seen || n in c[k..MAX_DEPTH + 1]
    decreases MAX_DEPTH + 1 - k
  {
    if k <= MAX_DEPTH {
      var entered := Trail(t.seen + {c[k]}, t.order + [c[k]]);
      WalkOfChain(roles, c, k + 1, entered);
      assert c[k..MAX_DEPTH + 1] == [c[k]] + c[k + 1..MAX_DEPTH + 1];
      var below := Walk(roles, [c[k + 1]], k + 1, entered);
      assert Walk(roles, [c[k]], k, t) == Walk(roles, [c[k]][1..], k, below);
    }
  }

  lemma {:induction false} PathsInChain(roles: Store, c: seq<string>, p: seq<string>)
    requires c != [] && Chain(roles, c) && IncludePath(roles, [c[0]], p) && |p| <= |c|
    ensures p == c[..|p|]
  {
    if |p| > 1 {
      var n := |p| - 1;
      assert IncludePath(roles, [c[0]], p[..n]);
      PathsInChain(roles, c, p[..n]);
      assert p[n - 1] == p[..n][n - 1] == c[n - 1];
      assert p[n] in roles[c[n - 1]].includes;
      assert p == p[..n] + [p[n]] && c[..n + 1] == c[..n] + [c[n]];
    }
  }

  /** From the tenth role on a chain is reachable and yet contributes nothing. */
  lemma ChainIsCut(roles: Store, c: seq<string>, k: nat)
    requires Chain(roles, c) && MAX_DEPTH < k < |c|
    ensures Reachable(roles, [c[0]], c[k]) && c[k] !in Expanded(roles, [c[0]])
  {
    assert IncludePath(roles, [c[0]], c[..k + 1]) && c[..k + 1][|c[..k + 1]| - 1] == c[k];
    ExpansionStaysNear(roles, [c[0]]);
    if Within(roles, [c[0]], c[k], MAX_DEPTH) {
      var p :| IncludePath(roles, [c[0]], p) && p[|p| - 1] == c[k] && |p| - 1 <= MAX_DEPTH;
      PathsInChain(roles, c, p);
    }
  }

  /** In a chain of ten roles or more the first nine contribute, in order, and nothing else does. */
  lemma ChainReachesNine(roles: Store, c: seq<string>)
    requires Chain(roles, c) && |c| >= 10
    ensures Expanded(roles, [c[0]]) == c[..9]
  {
    WalkOfChain(roles, c, 0, Trail({}, []));
    assert [] + c[0..9] == c[..9];
  }

  /** Being close to a grant is not enough: the tenth role is one include away from the second grant,
      but the walk has already met that grant at the cut-off depth and does not return to it. */
  lemma NearbyRoleIsLost(roles: Store, c: seq<string>)
    requires Chain(roles, c) && |c| > MAX_DEPTH + 1
    ensures var granted := [c[0], c[MAX_DEPTH]];
      && IncludePath(roles, granted, [c[MAX_DEPTH], c[MAX_DEPTH + 1]])
      && c[MAX_DEPTH + 1] !in Expanded(roles, granted)
  {
    var granted, t0 := [c[0], c[MAX_DEPTH]], Trail({}, []);
    WalkOfChain(roles, c, 0, t0);
    var first := Walk(roles, [c[0]], 0, t0);
    var entered := Trail(t0.seen + {c[0]}, t0.order + [c[0]]);
    var below := Walk(roles, roles[c[0]].includes, 1, entered);
    assert [c[0]][1..] == [];
    assert first == Walk(roles, [], 0, below);
    assert first == below;
    assert granted[1..] == [c[MAX_DEPTH]];
    assert c[MAX_DEPTH] in c[0..MAX_DEPTH + 1];
    assert Walk(roles, granted, 0, t0) == Walk(roles, granted[1..], 0, below);
    assert Walk(roles, granted[1..], 0, below) == Walk(roles, granted[1..][1..], 0, below) == below;
  }

  /** The same two grants the other way round do reach that role. So completeness depends on the order in which
      grants and includes are listed, and no condition on what is reachable from which grants can be exact. */
  lemma OrderDecides(roles: Store, c: seq<string>)
    requires Chain(roles, c) && |c| > MAX_DEPTH + 1
    ensures c[MAX_DEPTH + 1] !in Expanded(roles, [c[0], c[MAX_DEPTH]])
    ensures c[MAX_DEPTH + 1] in Expanded(roles, [c[MAX_DEPTH], c[0]])
  {
    NearbyRoleIsLost(roles, c);
    TwoSteps(roles, c[MAX_DEPTH], c[MAX_DEPTH + 1], [c[0]]);
    assert [c[MAX_DEPTH]] + [c[0]] == [c[MAX_DEPTH], c[0]];
  }

  lemma TwoSteps(roles: Store, n: string, next: string, rest: seq<string>)
    requires n in roles && next in roles && n != next && roles[n].includes == [next]
    ensures next in Expanded(roles, [n] + rest)
  {
    var t0 := Trail({}, []);
    var entered := Trail(t0.seen + {n}, t0.order + [n]);
    var both := Trail(entered.seen + {next}, entered.order + [next]);
    var deeper := Walk(roles, roles[next].includes, 2, both);
    WalkIsOrderly(roles, roles[next].includes, 2, both);
    var below := Walk(roles, [next], 1, entered);
    assert below == Walk(roles, [next][1..], 1, deeper) == deeper;
    assert ([n] + rest)[1..] == rest;
    assert Walk(roles, [n] + rest, 0, t0) == Walk(roles, rest, 0, below);
    WalkIsOrderly(roles, rest, 0, below);
  }

  // ---- stored roles -----------------------------------------------------------------------------

  /** The references the walk tries. */
  function Visited(table: Table, granted: seq<string>): set<string> {
    Walk(Loaded(table), granted, 0, Trail({}, [])).seen
  }

  /** No stored role contributes under two references. */
  ghost predicate EachRoleOnce(table: Table, granted: seq<string>) {
    var refs := Expanded(Loaded(table), granted);
    forall i, j :: 0 <= i < j < |refs| ==> RowOf(table, refs[i]) != RowOf(table, refs[j])
  }

  /** Stored roles contribute at most once exactly when no two references the walk tries load the same role. */
  lemma RolesContributeOnceIff(table: Table, granted: seq<string>)
    ensures EachRoleOnce(table, granted) <==>
      forall a, b | a in Visited(table, granted) && b in Visited(table, granted) && a != b ::
        LoadOne(table, a).Set? && LoadOne(table, b).Set? ==> RowOf(table, a) != RowOf(table, b)
  {
    hide RowOf, LoadOne, Loaded, Walk;
    var roles, t0 := Loaded(table), Trail({}, []);
    WalkIsOrderly(roles, granted, 0, t0);
    var refs := Expanded(roles, granted);
    forall a ensures a in refs <==> a in Visited(table, granted) && LoadOne(table, a).Set? { LoadedIs(table, a); }
    if EachRoleOnce(table, granted) {
      forall a, b | a in refs && b in refs && a != b ensures RowOf(table, a) != RowOf(table, b) {
        var i :| 0 <= i < |refs| && refs[i] == a;
        var j :| 0 <= j < |refs| && refs[j] == b;
        if i > j { assert RowOf(table, refs[j]) != RowOf(table, refs[i]); }
      }
    }
  }

  /** In a shallow graph that is a condition on the graph: no two reachable references load the same role. */
  lemma ShallowRolesContributeOnceIff(table: Table, granted: seq<string>)
    requires Shallow(Loaded(table), granted)
    ensures EachRoleOnce(table, granted) <==>
      forall a, b :: Reachable(Loaded(table), granted, a) && Reachable(Loaded(table), granted, b) && a != b ==>
        RowOf(table, a) != RowOf(table, b)
  {
    hide RowOf, LoadOne, Loaded, Walk, Reachable, Shallow;
    var roles := Loaded(table);
    ExpansionIsComplete(roles, granted);
    RolesContributeOnceIff(table, granted);
    WalkIsOrderly(roles, granted, 0, Trail({}, []));
    forall a ensures Reachable(roles, granted, a) <==> a in Visited(table, granted) && LoadOne(table, a).Set? {
      LoadedIs(table, a);
    }
  }

  /** Whatever the graph, it is enough that no two references within eight includes of a grant load the same role. */
  lemma NearRolesContributeOnce(table: Table, granted: seq<string>)
    requires forall a, b ::
      a != b && NearBy(table, granted, a) && NearBy(table, granted, b) ==> RowOf(table, a) != RowOf(table, b)
    ensures EachRoleOnce(table, granted)
  {
    hide RowOf, Loaded, Within, Expanded;
    var roles := Loaded(table);
    ExpansionIsSound(roles, granted);
    ExpansionStaysNear(roles, granted);
    var refs := Expanded(roles, granted);
    forall i, j | 0 <= i < j < |refs| ensures RowOf(table, refs[i]) != RowOf(table, refs[j]) {
      assert refs[i] in refs && refs[j] in refs && refs[i] != refs[j];
      assert NearBy(table, granted, refs[i]) && NearBy(table, granted, refs[j]);
    }
  }

  /** The reference loads and is at most eight includes away from a grant. */
  ghost predicate NearBy(table: Table, granted: seq<string>, ref: string) {
    ref in Loaded(table) && Within(Loaded(table), granted, ref, MAX_DEPTH)
  }

  /** References that load are names. */
  ghost predicate NamesOnly(table: Table, granted: seq<string>) {
    forall ref :: ref in Loaded(table) && Reachable(Loaded(table), granted, ref) ==> ref in table.rows
  }

  /** Where roles are referred to by name only, each contributes at most once, in any graph. */
  lemma NamedRolesContributeOnce(table: Table, granted: seq<string>)
    requires NamesOnly(table, granted)
    ensures EachRoleOnce(table, granted)
  {
    hide Reachable, Loaded, Walk, Expanded;
    ExpansionIsSound(Loaded(table), granted);
  }

  /** A role granted by its name and by its identifier contributes twice. */
  lemma NameAndIdContributeTwice(table: Table, name: string, id: string)
    requires name in table.rows && table.rows[name].Set? && table.rows[name].value.includes == []
    requires id !in table.rows && id in table.names && table.names[id] == name
    ensures var roles := Loaded(table);
      && Expanded(roles, [name, id]) == [name, id]
      && PermissionsOf(roles, [name, id]) == table.rows[name].value.permissions + table.rows[name].value.permissions
      && !EachRoleOnce(table, [name, id])
  {
    hide Loaded;
    var roles, role := Loaded(table), table.rows[name].value;
    LoadedIs(table, name);
    LoadedIs(table, id);
    assert roles[name] == role && roles[id] == role;
    var t0 := Trail({}, []);
    var t1 := Trail(t0.seen + {name}, t0.order + [name]);
    var t2 := Trail(t1.seen + {id}, t1.order + [id]);
    assert [name, id][1..] == [id] && [id][1..] == [];
    assert Walk(roles, [name, id], 0, t0) == Walk(roles, [id], 0, Walk(roles, [], 1, t1)) == Walk(roles, [id], 0, t1);
    assert Walk(roles, [id], 0, t1) == Walk(roles, [], 0, Walk(roles, [], 1, t2)) == t2;
    assert [name, id][..1] == [name] && [name][..0] == [];
    assert PermissionsOf(roles, []) == [] && PermissionsOf(roles, [name]) == role.permissions;
    var refs := Expanded(roles, [name, id]);
    assert RowOf(table, refs[0]) == RowOf(table, refs[1]);
  }

  /** Roles that include themselves under their identifier before the next role: `c` are names, `d` identifiers. */
  ghost predicate Aliased(table: Table, c: seq<string>, d: seq<string>) {
    && |c| == |d| && Distinct(c + d)
    && (forall i :: 0 <= i < |c| ==> c[i] in table.rows && table.rows[c[i]].Set?)
    && (forall i :: 0 <= i < |c| ==> d[i] !in table.rows && d[i] in table.names && table.names[d[i]] == c[i])
    && (forall i :: 0 <= i < |c| - 1 ==> table.rows[c[i]].value.includes == [d[i], c[i + 1]])
  }

  lemma AliasesLoad(table: Table, c: seq<string>, d: seq<string>, i: nat)
    requires Aliased(table, c, d) && i < |c| - 1
    ensures var roles := Loaded(table);
      c[i] in roles && d[i] in roles && roles[c[i]].includes == [d[i], c[i + 1]] == roles[d[i]].includes
  {
    hide Loaded;
    LoadedIs(table, c[i]);
    LoadedIs(table, d[i]);
  }

  lemma AliasesDiffer(c: seq<string>, d: seq<string>, i: nat, j: nat)
    requires |c| == |d| && Distinct(c + d) && i < |c| && j < |c|
    ensures c[i] != d[j] && (i != j ==> c[i] != c[j] && d[i] != d[j])
  {
    var all := c + d;
    assert all[i] == c[i] && all[j] == c[j] && all[|c| + i] == d[i] && all[|c| + j] == d[j];
  }

  /** The walk enters each role twice on its way down, so depth runs out at the fifth role. */
  lemma {:induction false} WalkOfAliases(table: Table, c: seq<string>, d: seq<string>, k: nat, t: Trail)
    requires Aliased(table, c, d) && |c| > 5 && k <= 4
    requires forall i :: k <= i <= 5 ==> c[i] !in t.seen && d[i] !in t.seen
    ensures var r := Walk(Loaded(table), [c[k]], 2 * k, t); t.seen + {c[k]} <= r.seen && c[5] !in r.seen
    decreases 4 - k
  {
    hide Loaded, Aliased;
    var roles := Loaded(table);
    AliasesLoad(table, c, d, k);
    assert |c| == |d| && Distinct(c + d) by { AliasedMeans(table, c, d); }
    var first := Trail(t.seen + {c[k]}, t.order + [c[k]]);
    AliasesDiffer(c, d, 5, k);
    assert [c[k]][1..] == [] && [d[k], c[k + 1]][1..] == [c[k + 1]] && [c[k + 1]][1..] == [];
    if k == 4 {
      assert Walk(roles, [c[k]], 8, t) == Walk(roles, [], 8, Walk(roles, [d[k], c[k + 1]], 9, first)) == first;
    } else {
      AliasesDiffer(c, d, k, k);
      var second := Trail(first.seen + {d[k]}, first.order + [d[k]]);
      forall i | k + 1 <= i <= 5 ensures c[i] !in second.seen && d[i] !in second.seen {
        AliasesDiffer(c, d, i, k);
        AliasesDiffer(c, d, k, i);
      }
      WalkOfAliases(table, c, d, k + 1, second);
      var deep := Walk(roles, [c[k + 1]], 2 * k + 2, second);
      assert Walk(roles, [d[k], c[k + 1]], 2 * k + 2, second) == deep;
      assert Walk(roles, [c[k + 1]], 2 * k + 1, deep) == Walk(roles, [], 2 * k + 1, deep) == deep;
      assert Walk(roles, [d[k], c[k + 1]], 2 * k + 1, first) == deep;
      assert Walk(roles, [c[k]], 2 * k, t) == Walk(roles, [], 2 * k, deep) == deep;
    }
  }

  lemma AliasedMeans(table: Table, c: seq<string>, d: seq<string>)
    requires Aliased(table, c, d)
    ensures |c| == |d| && Distinct(c + d)
  {}

  /** The eight edges count references: with such aliases a role five includes away from the only grant is lost. */
  lemma AliasesLoseNearRoles(table: Table, c: seq<string>, d: seq<string>)
    requires Aliased(table, c, d) && |c| > 5
    ensures Within(Loaded(table), [c[0]], c[5], 5) && c[5] !in Expanded(Loaded(table), [c[0]])
  {
    hide Loaded, Walk;
    var roles, p, t0 := Loaded(table), c[..6], Trail({}, []);
    LoadedIs(table, c[5]);
    forall i | 0 <= i < 5 ensures c[i] in roles && c[i + 1] in roles[c[i]].includes { AliasesLoad(table, c, d, i); }
    assert IncludePath(roles, [c[0]], p) && p[|p| - 1] == c[5];
    WalkOfAliases(table, c, d, 0, t0);
    WalkIsOrderly(roles, [c[0]], 0, t0);
  }

  // ---- the code ---------------------------------------------------------------------------------

  /** The variables the recursive closure captures. */
  class Expansion {
    const table: Table
    var seen: set<string>
    var perms: seq<string>
    ghost var order: seq<string>

    constructor (table: Table)
      ensures this.table == table && seen == {} && perms == [] && order == []
    {
      this.table, seen, perms, order := table, {}, [], [];
    }

    ghost predicate Valid()
      reads this
    {
      (forall n :: n in order ==> n in Loaded(table)) && perms == PermissionsOf(Loaded(table), order)
    }

    method Expand(names: seq<string>, depth: nat)
      requires Valid()
      modifies this
      ensures Valid()
      ensures Trail(seen, order) == Walk(Loaded(table), names, depth, Trail(old(seen), old(order)))
      decreases MAX_DEPTH + 1 - depth
    {
      hide Loaded, LoadOne;
      if depth > MAX_DEPTH { return; }
      ghost var t0 := Trail(seen, order);
      for i := 0 to |names|
        invariant Valid()
        invariant Walk(Loaded(table), names[i..], depth, Trail(seen, order)) == Walk(Loaded(table), names, depth, t0)
      {
        ghost var rest := names[i..];
        assert rest[0] == names[i] && rest[1..] == names[i + 1..];
        if names[i] in seen { continue; }
        seen := seen + {names[i]};
        var loaded := LoadOne(table, names[i]);
        LoadedIs(table, names[i]);
        if loaded.Unset? { continue; }
        var role := loaded.value;
        assert (order + [names[i]])[..|order|] == order;
        perms := perms + role.permissions;
        order := order + [names[i]];
        Expand(role.includes, depth + 1);
      }
    }
  }

  method RolePerms(table: Table, roleNames: seq<string>) returns (perms: seq<string>)
    ensures var roles := Loaded(table);
      && (forall n :: n in Expanded(roles, roleNames) ==> n in roles)
      && perms == PermissionsOf(roles, Expanded(roles, roleNames))
  {
    ExpansionIsSound(Loaded(table), roleNames);
    var e := new Expansion(table);
    e.Expand(roleNames, 0);
    perms := e.perms;
  }

  /** Permission by permission: what comes back is what some contributing role grants. */
  lemma {:induction false} PermissionsComeFromRoles(roles: Store, order: seq<string>, p: string)
    requires forall n :: n in order ==> n in roles
    ensures p in PermissionsOf(roles, order) <==> exists n :: n in order && p in roles[n].permissions
  {
    if order != [] {
      var init, last := order[..|order| - 1], order[|order| - 1];
      PermissionsComeFromRoles(roles, init, p);
      assert forall n :: n in order <==> n in init || n == last;
    }
  }
}
