/** What an index entry means (internal/catalog/catalog.go, internal/model/objects.go), said without the functions that
    compute it: which templates take effect and in which order, who sets a field, what program a check runs, and what
    the catalog shows for every object of the store. */
module CatalogMeaning {
  import opened Basics
  import opened CatalogModel
  import opened CatalogIndex
  import opened CatalogPatches
  import opened Catalog

  // ---- which templates take effect --------------------------------------------------------------

  /** A list of templates, each with the forest of its own bases below it. */
  datatype Forest = Bare | Grove(name: string, below: Forest, rest: Forest)

  /** The forest spells out the includes from these names on; every template in it exists. */
  ghost predicate Grows(templates: map<string, Spec>, names: seq<string>, f: Forest)
    decreases f
  {
    match f
    case Bare => names == []
    case Grove(n, below, rest) =>
      && names != [] && n == names[0] && n in templates
      && Grows(templates, Items(templates[n].templates), below) && Grows(templates, names[1..], rest)
  }

  /** Every template before its bases. */
  function Preorder(f: Forest): seq<string> {
    match f
    case Bare => []
    case Grove(n, below, rest) => [n] + Preorder(below) + Preorder(rest)
  }

  /** Every template after its bases. */
  function Postorder(f: Forest): seq<string> {
    match f
    case Bare => []
    case Grove(n, below, rest) => Postorder(below) + [n] + Postorder(rest)
  }

  /** Every name is new when it is met: not in `seen`, and not met before. */
  ghost predicate Anew(names: seq<string>, seen: set<string>) {
    names == [] || (names[0] !in seen && Anew(names[1..], seen + {names[0]}))
  }

  ghost predicate Fits(templates: map<string, Spec>, names: seq<string>, seen: set<string>, f: Forest) {
    Grows(templates, names, f) && Anew(Preorder(f), seen)
  }

  lemma {:induction false} AnewJoins(a: seq<string>, b: seq<string>, seen: set<string>)
    ensures Anew(a + b, seen) <==> Anew(a, seen) && Anew(b, seen + (set x | x in a))
  {
    if a == [] {
      assert a + b == b && seen + (set x | x in a) == seen;
    } else {
      assert (a + b)[1..] == a[1..] + b;
      AnewJoins(a[1..], b, seen + {a[0]});
      assert seen + {a[0]} + (set x | x in a[1..]) == seen + (set x | x in a);
    }
  }

  lemma AnewSplits(n: string, below: seq<string>, rest: seq<string>, seen: set<string>)
    ensures Anew([n] + below + rest, seen) <==>
      n !in seen && Anew(below, seen + {n}) && Anew(rest, seen + {n} + (set x | x in below))
  {
    hide Anew;
    assert [n] + below + rest == [n] + (below + rest);
    AnewJoins([n], below + rest, seen);
    AnewJoins(below, rest, seen + {n});
    AnewOne(n, seen);
    assert (set x | x in [n]) == {n};
  }

  lemma AnewOne(n: string, seen: set<string>)
    ensures Anew([n], seen) <==> n !in seen
  {
    assert [n][1..] == [];
  }

  /** Resolution succeeds exactly when the includes form a finite forest of existing templates without repetition. It
      then has met them in preorder, and they take effect in postorder. */
  lemma {:induction false} ResolvesAlong(templates: map<string, Spec>, names: seq<string>, acc: Spec,
                                         seen: set<string>, chain: seq<string>, f: Forest)
    requires Fits(templates, names, seen, f)
    ensures var r := Resolve(templates, names, acc, seen, chain);
      && r.Resolved? && r.chain == chain + Preorder(f) && r.seen == seen + (set n | n in Preorder(f))
      && Order(templates, names, seen, chain) == Postorder(f)
    decreases f
  {
    hide Merge, NO_SPEC, Anew, Resolve, Order;
    if f == Bare {
      NothingToResolve(templates, acc, seen, chain);
      assert chain + [] == chain && seen + (set n | n in []) == seen;
    } else {
      var n, bases := f.name, Items(templates[names[0]].templates);
      AnewSplits(n, Preorder(f.below), Preorder(f.rest), seen);
      ResolvesAlong(templates, bases, NO_SPEC, seen + {n}, chain + [n], f.below);
      var r := Resolve(templates, bases, NO_SPEC, seen + {n}, chain + [n]);
      ResolvesAlong(templates, names[1..], Merge(acc, Merge(r.spec, templates[n])), r.seen, r.chain, f.rest);
      ResolveFirst(templates, names, acc, seen, chain);
      assert chain + [n] + Preorder(f.below) + Preorder(f.rest) == chain + Preorder(f);
      SeenJoins(n, Preorder(f.below), Preorder(f.rest), seen);
    }
  }

  lemma NothingToResolve(templates: map<string, Spec>, acc: Spec, seen: set<string>, chain: seq<string>)
    ensures Resolve(templates, [], acc, seen, chain) == Resolved(acc, seen, chain)
    ensures Order(templates, [], seen, chain) == []
  {}

  lemma ResolveFirst(templates: map<string, Spec>, names: seq<string>, acc: Spec, seen: set<string>,
                     chain: seq<string>)
    requires names != [] && names[0] in templates && names[0] !in seen
    requires Resolve(templates, Items(templates[names[0]].templates), NO_SPEC, seen + {names[0]},
                     chain + [names[0]]).Resolved?
    ensures var n, bases := names[0], Items(templates[names[0]].templates);
      var r := Resolve(templates, bases, NO_SPEC, seen + {n}, chain + [n]);
      && Resolve(templates, names, acc, seen, chain) ==
         Resolve(templates, names[1..], Merge(acc, Merge(r.spec, templates[n])), r.seen, r.chain)
      && Order(templates, names, seen, chain) ==
         Order(templates, bases, seen + {n}, chain + [n]) + [n] + Order(templates, names[1..], r.seen, r.chain)
  {
    hide Merge, NO_SPEC;
  }

  lemma SeenJoins(n: string, below: seq<string>, rest: seq<string>, seen: set<string>)
    ensures seen + {n} + (set x | x in below) + (set x | x in rest) == seen + (set x | x in [n] + below + rest)
  {}

  lemma {:induction false} ForestOf(templates: map<string, Spec>, names: seq<string>, acc: Spec,
                                    seen: set<string>, chain: seq<string>) returns (f: Forest)
    requires Resolve(templates, names, acc, seen, chain).Resolved?
    ensures Fits(templates, names, seen, f)
    decreases templates.Keys - seen, |names|
  {
    hide Merge, NO_SPEC, Anew;
    f := Bare;
    if names == [] {
      NothingAnew(seen);
    } else {
      var n := names[0];
      var bases := Items(templates[n].templates);
      var below := ForestOf(templates, bases, NO_SPEC, seen + {n}, chain + [n]);
      ResolvesAlong(templates, bases, NO_SPEC, seen + {n}, chain + [n], below);
      var r := Resolve(templates, bases, NO_SPEC, seen + {n}, chain + [n]);
      var rest := ForestOf(templates, names[1..], Merge(acc, Merge(r.spec, templates[n])), r.seen, r.chain);
      f := Grove(n, below, rest);
      AnewSplits(n, Preorder(below), Preorder(rest), seen);
    }
  }

  lemma NothingAnew(seen: set<string>)
    ensures Anew([], seen)
  {}

  /** An object has an effective specification exactly when its includes form a forest of existing templates, each met
      once; cycles, duplicates and missing templates are configuration errors.  The chain names the templates in the
      order of meeting. */
  lemma EffectiveIff(o: Object, templates: map<string, Spec>)
    ensures EffectiveSpec(o, templates).Effective? <==>
      exists f :: Fits(templates, Items(o.spec.templates), {}, f)
    ensures forall f :: Fits(templates, Items(o.spec.templates), {}, f) ==>
      EffectiveSpec(o, templates).chain == Preorder(f)
  {
    hide Fits, Merge, NO_SPEC, DEFAULTS;
    var names := Items(o.spec.templates);
    if Resolve(templates, names, NO_SPEC, {}, []).Resolved? {
      var f := ForestOf(templates, names, NO_SPEC, {}, []);
    }
    forall f | Fits(templates, names, {}, f)
      ensures EffectiveSpec(o, templates).Effective? && EffectiveSpec(o, templates).chain == Preorder(f)
    {
      ResolvesAlong(templates, names, NO_SPEC, {}, [], f);
      assert [] + Preorder(f) == Preorder(f);
    }
  }

  /** Two templates that include each other: whoever uses one of them is a configuration error. */
  lemma CycleIsAnError(o: Object, templates: map<string, Spec>, a: string, b: string)
    requires a in templates && b in templates && a != b && o.spec.templates == Set([a])
    requires templates[a].templates == Set([b]) && templates[b].templates == Set([a])
    ensures EffectiveSpec(o, templates).ConfigError?
  {
    hide Fits;
    EffectiveIff(o, templates);
    forall f ensures !Fits(templates, [a], {}, f) { CycleRepeats(templates, a, b, f); }
  }

  lemma CycleRepeats(templates: map<string, Spec>, a: string, b: string, f: Forest)
    requires a in templates && b in templates
    requires templates[a].templates == Set([b]) && templates[b].templates == Set([a])
    ensures !Fits(templates, [a], {}, f)
  {
    if Grows(templates, [a], f) {
      assert Grows(templates, [b], f.below);
      assert Grows(templates, [a], f.below.below);
      assert Preorder(f.below) == [b] + Preorder(f.below.below) + Preorder(f.below.rest);
      assert Preorder(f) == [a] + Preorder(f.below) + Preorder(f.rest);
      var c, d := Preorder(f.below.below)[1..], Preorder(f.below.rest);
      AnewSplits(a, Preorder(f.below), Preorder(f.rest), {});
      AnewSplits(b, Preorder(f.below.below), d, {a});
      AnewSplits(a, c, [], {a, b});
      assert Preorder(f.below.below) == [a] + c + [];
    }
  }

  // ---- who sets a field -------------------------------------------------------------------------

  /** An overlay sets nothing that no layer sets. */
  lemma {:induction false} NobodySets(layers: seq<Spec>)
    ensures (forall i :: 0 <= i < |layers| ==> layers[i].checkCommand == "") ==> Overlay(layers).checkCommand == ""
    ensures (forall i :: 0 <= i < |layers| ==> layers[i].parents.Unset?) ==> Overlay(layers).parents.Unset?
    ensures (forall i :: 0 <= i < |layers| ==> layers[i].args.Unset?) ==> Overlay(layers).args.Unset?
  {
    if layers != [] {
      var n := |layers| - 1;
      NobodySets(layers[..n]);
      assert forall i :: 0 <= i < n ==> layers[..n][i] == layers[i];
    }
  }

  lemma {:induction false} VarsAreSomeones(layers: seq<Spec>, v: string)
    ensures v in Overlay(layers).vars <==> exists i :: 0 <= i < |layers| && v in layers[i].vars
  {
    if layers != [] {
      var n := |layers| - 1;
      VarsAreSomeones(layers[..n], v);
      assert forall i :: 0 <= i < n ==> layers[..n][i] == layers[i];
    }
  }

  /** The layers of an object from the bottom up: the defaults, its templates each after its bases, its own settings. */
  ghost predicate AreLayers(o: Object, templates: map<string, Spec>, f: Forest, layers: seq<Spec>) {
    var order := Postorder(f);
    && |layers| == |order| + 2
    && layers[0] == Spec(Unset, Unset, "", Unset, "24x7", map[]) && layers[|order| + 1] == o.spec
    && forall i :: 0 <= i < |order| ==> order[i] in templates && layers[i + 1] == templates[order[i]]
  }

  /** Each field of an effective specification has the value of the highest layer that sets it: own settings win over
      templates, a template over its bases, a later one over an earlier, all of them over the defaults; variables go
      key by key, and what no layer sets is not set.  The templates are those the object itself declares. */
  lemma EffectiveFields(o: Object, templates: map<string, Spec>, f: Forest, layers: seq<Spec>, i: nat, v: string)
    requires Fits(templates, Items(o.spec.templates), {}, f) && AreLayers(o, templates, f, layers) && i < |layers|
    ensures EffectiveSpec(o, templates).Effective?
    ensures var eff := EffectiveSpec(o, templates).spec;
      && (layers[i].checkCommand != "" && (forall j :: i < j < |layers| ==> layers[j].checkCommand == "") ==>
            eff.checkCommand == layers[i].checkCommand)
      && (layers[i].checkPeriod != "" && (forall j :: i < j < |layers| ==> layers[j].checkPeriod == "") ==>
            eff.checkPeriod == layers[i].checkPeriod)
      && (layers[i].parents.Set? && (forall j :: i < j < |layers| ==> layers[j].parents.Unset?) ==>
            eff.parents == layers[i].parents)
      && (layers[i].args.Set? && (forall j :: i < j < |layers| ==> layers[j].args.Unset?) ==>
            eff.args == layers[i].args)
      && (v in layers[i].vars && (forall j :: i < j < |layers| ==> v !in layers[j].vars) ==>
            v in eff.vars && eff.vars[v] == layers[i].vars[v])
      && ((forall j :: 0 <= j < |layers| ==> layers[j].checkCommand == "") ==> eff.checkCommand == "")
      && ((forall j :: 0 <= j < |layers| ==> layers[j].parents.Unset?) ==> eff.parents.Unset?)
      && ((forall j :: 0 <= j < |layers| ==> layers[j].args.Unset?) ==> eff.args.Unset?)
      && (v in eff.vars ==> exists j :: 0 <= j < |layers| && v in layers[j].vars)
      && eff.templates == o.spec.templates
  {
    LayersAreThese(o, templates, f, layers);
    EffectiveIff(o, templates);
    hide Fits, AreLayers, Layers, Overlay, Resolve, Merge;
    EffectiveIsOverlay(o, templates);
    LastSetterWins(layers, i, v);
    NobodySets(layers);
    VarsAreSomeones(layers, v);
  }

  lemma LayersAreThese(o: Object, templates: map<string, Spec>, f: Forest, layers: seq<Spec>)
    requires Fits(templates, Items(o.spec.templates), {}, f) && AreLayers(o, templates, f, layers)
    ensures layers == Layers(o, templates)
  {
    hide Fits, Grows, Anew, Order, Postorder, Resolve, Preorder;
    ResolvesAlong(templates, Items(o.spec.templates), NO_SPEC, {}, [], f);
  }

  // ---- what a check runs ------------------------------------------------------------------------

  /** A host that is checked passively is not run; an inline reference runs what follows its prefix, with the arguments
      after it; a named one runs the stored line, of which a builtin's first word is its name, and the arguments are
      macro values.  Only a stored command can ask for the environment. */
  ghost predicate RunsAs(spec: Spec, commands: map<string, Command>, run: Run) {
    var ref, args := spec.checkCommand, if spec.args.Set? then spec.args.value else [];
    && run.macroArgs == args
    && (if ref == "" || ref == "passive" then
          run.kind == Set(Passive) && run.builtin == "" && run.argv == [] && !run.env
        else if HasPrefix(ref, "builtin:") then
          run.kind == Set(Builtin) && ref == "builtin:" + run.builtin && run.argv == args && !run.env
        else if HasPrefix(ref, "exec:") then
          && run.kind == Set(Exec) && run.builtin == "" && !run.env
          && run.argv != [] && ref == "exec:" + run.argv[0] && run.argv[1..] == args
        else if HasPrefix(ref, "agent:") then
          && run.kind == Set(Agent) && run.builtin == "" && !run.env
          && run.argv != [] && run.argv[1..] == args
          && ref == (if HasPrefix(ref, "agent:exec:") then "agent:exec:" else "agent:") + run.argv[0]
        else
          && ref in commands && run.kind == Set(commands[ref].kind) && run.env == commands[ref].env
          && (commands[ref].kind == Passive ==> run.builtin == "" && run.argv == [])
          && (commands[ref].kind == Builtin ==> [run.builtin] + run.argv == commands[ref].line)
          && (commands[ref].kind == Exec || commands[ref].kind == Agent ==>
                run.builtin == "" && run.argv == commands[ref].line))
  }

  lemma PrefixIs(s: string, p: string)
    ensures HasPrefix(s, p) ==> s == p + TrimPrefix(s, p)
  {}

  lemma AgentPrefix(ref: string)
    requires HasPrefix(ref, "agent:")
    ensures HasPrefix(ref, "agent:exec:") <==> HasPrefix(TrimPrefix(ref, "agent:"), "exec:")
  {
    var rest := TrimPrefix(ref, "agent:");
    assert ref == "agent:" + rest && "agent:exec:" == "agent:" + "exec:";
    if |ref| >= 11 { assert ref[..11] == "agent:" + rest[..5]; }
  }

  /** A reference resolves to a run if it is inline or its command is stored, and the run is that of the reference; it
      is unknown exactly when it names a command that is not stored. */
  lemma CommandMeans(spec: Spec, commands: map<string, Command>)
    ensures var r := ResolveCommand(spec, commands);
      && (r.Runs? ==> RunsAs(spec, commands, r.run))
      && (r == Unknown <==> IsNamed(spec.checkCommand) && spec.checkCommand !in commands)
      && (r == Panics <==>
            && IsNamed(spec.checkCommand) && spec.checkCommand in commands
            && commands[spec.checkCommand].kind == Builtin && commands[spec.checkCommand].line == [])
  {
    hide HasPrefix, TrimPrefix;
    if IsNamed(spec.checkCommand) {
      if spec.checkCommand in commands { NamedMeans(spec, commands); }
    } else {
      InlineMeans(spec, commands);
    }
  }

  lemma NamedMeans(spec: Spec, commands: map<string, Command>)
    requires IsNamed(spec.checkCommand) && spec.checkCommand in commands
    ensures var r := ResolveCommand(spec, commands); r.Runs? ==> RunsAs(spec, commands, r.run)
  {
    hide HasPrefix, TrimPrefix;
  }

  lemma InlineMeans(spec: Spec, commands: map<string, Command>)
    requires !IsNamed(spec.checkCommand)
    ensures var r := ResolveCommand(spec, commands); r.Runs? && RunsAs(spec, commands, r.run)
  {
    var ref, args := spec.checkCommand, Items(spec.args);
    hide HasPrefix, TrimPrefix;
    PrefixIs(ref, "builtin:");
    PrefixIs(ref, "exec:");
    PrefixIs(ref, "agent:");
    if HasPrefix(ref, "agent:") {
      var rest := TrimPrefix(ref, "agent:");
      AgentPrefix(ref);
      PrefixIs(rest, "exec:");
      NoPrefix(rest, "exec:");
      assert "agent:exec:" + TrimPrefix(rest, "exec:") == "agent:" + ("exec:" + TrimPrefix(rest, "exec:"));
    }
    assert forall x :: ([x] + args)[1..] == args;
  }

  lemma NoPrefix(s: string, p: string)
    ensures !HasPrefix(s, p) ==> TrimPrefix(s, p) == s
  {}

  // ---- an entry's record ------------------------------------------------------------------------

  /** The object cannot be resolved: its includes are no forest, or it names a command that is not stored. */
  ghost predicate Unresolvable(o: Object, cfg: Config) {
    || !(exists f :: Fits(cfg.templates, Items(o.spec.templates), {}, f))
    || (EffectiveSpec(o, cfg.templates).Effective?
        && IsNamed(EffectiveSpec(o, cfg.templates).spec.checkCommand)
        && EffectiveSpec(o, cfg.templates).spec.checkCommand !in cfg.commands)
  }

  /** What the index keeps of one object: its effective specification, what its check runs, and the period it names if
      there is one; bare defaults, and nothing to run, if it cannot be resolved. */
  ghost predicate RecMeans(o: Object, cfg: Config, r: Rec)
    requires Unresolvable(o, cfg) || EffectiveSpec(o, cfg.templates).Effective?
  {
    && r.obj == o
    && if Unresolvable(o, cfg) then
         && r.effective == Spec(Unset, Unset, "", Unset, "24x7", map[]) && r.chain == []
         && r.run == Run(Unset, "", [], [], false) && r.period == Unset
       else
         && r.effective == EffectiveSpec(o, cfg.templates).spec && r.chain == EffectiveSpec(o, cfg.templates).chain
         && RunsAs(r.effective, cfg.commands, r.run)
         && (r.period.Set? <==> r.effective.checkPeriod in cfg.periods)
         && (r.period.Set? ==> r.period.value == cfg.periods[r.effective.checkPeriod])
  }

  lemma IndexedMeans(o: Object, cfg: Config)
    requires Indexable(o, cfg)
    ensures EffectiveSpec(o, cfg.templates).Effective? || Unresolvable(o, cfg)
    ensures RecMeans(o, cfg, Indexed(o, cfg))
    ensures HasConfigError(o, cfg) <==> Unresolvable(o, cfg)
  {
    hide Fits, RunsAs, EffectiveSpec, ResolveCommand, IsNamed;
    EffectiveIff(o, cfg.templates);
    if EffectiveSpec(o, cfg.templates).Effective? {
      CommandMeans(EffectiveSpec(o, cfg.templates).spec, cfg.commands);
    }
  }

  // ---- what the catalog shows -------------------------------------------------------------------

  /** The store lists this value last under this name. */
  ghost predicate Lists<V(!new)>(items: seq<(string, V)>, name: string, v: V) {
    exists i :: 0 <= i < |items| && items[i] == (name, v) && forall j :: i < j < |items| ==> items[j].0 != name
  }

  lemma {:induction false} AsMapMeans<V(!new)>(items: seq<(string, V)>, name: string, v: V)
    ensures (name in AsMap(items) && AsMap(items)[name] == v) <==> Lists(items, name, v)
  {
    if items != [] {
      var n := |items| - 1;
      AsMapMeans(items[..n], name, v);
      if items[n].0 == name {
        if Lists(items, name, v) {
          var i :| 0 <= i < |items| && items[i] == (name, v) && forall j :: i < j < |items| ==> items[j].0 != name;
          assert i == n;
        }
      } else {
        if Lists(items[..n], name, v) {
          var i :|
            0 <= i < n && items[..n][i] == (name, v) && forall j :: i < j < n ==> items[..n][j].0 != name;
          assert items[i] == (name, v) && forall j :: i < j < |items| ==> items[j].0 != name;
        }
        if Lists(items, name, v) {
          var i :| 0 <= i < |items| && items[i] == (name, v) && forall j :: i < j < |items| ==> items[j].0 != name;
          assert items[..n][i] == (name, v) && forall j :: i < j < n ==> items[..n][j].0 != name;
        }
      }
    }
  }

  /** Every entry of a catalog that follows the store is that of its object under its tenant's stored configuration. */
  lemma EntryMeans(c: Catalog, w: World, id: string)
    requires c.Follows(w)
    ensures id in c.entries <==> id in w.objs
    ensures id in w.objs ==>
      var o, cfg := w.objs[id], AsConfig(w.settings[w.objs[id].tenant]);
      (Unresolvable(o, cfg) || EffectiveSpec(o, cfg.templates).Effective?) && RecMeans(o, cfg, c.entries[id].rec)
  {
    hide Indexable, Indexed, AsConfig, ConfigOf, RecMeans, Unresolvable, EffectiveSpec, WellFormed, AllEdgesOk, Tidy;
    assert c.Objects().Keys == RecsOf(c.entries).Keys == c.entries.Keys;
    if id in w.objs {
      assert w.objs[id] == c.entries[id].rec.obj && RecsOf(c.entries)[id] == c.entries[id].rec;
      IndexedMeans(w.objs[id], AsConfig(w.settings[w.objs[id].tenant]));
    }
  }

  /** A host of the tenant has this name. */
  ghost predicate IsHost(objs: map<string, Object>, tenant: string, name: string, id: string) {
    id in objs && objs[id].tenant == tenant && objs[id].kind == Host && objs[id].hostId == "" && objs[id].name == name
  }

  /** The hosts of the tenant among these names, in this order. */
  ghost predicate HostsNamed(objs: map<string, Object>, tenant: string, names: seq<string>, ids: seq<string>) {
    if names == [] then ids == []
    else
      var n := |names| - 1;
      if exists id :: IsHost(objs, tenant, names[n], id) then
        ids != [] && IsHost(objs, tenant, names[n], ids[|ids| - 1]) &&
        HostsNamed(objs, tenant, names[..n], ids[..|ids| - 1])
      else HostsNamed(objs, tenant, names[..n], ids)
  }

  lemma {:induction false} ParentIdsMean(recs: Recs, byName: map<string, string>, tenant: string, names: seq<string>)
    requires NamesOk(recs, byName) && OwnIds(ObjectsOf(recs)) && SlashFree(tenant)
    ensures HostsNamed(ObjectsOf(recs), tenant, names, ParentIds(byName, tenant, names))
  {
    hide SlashFree, NameKey, NamesOk, OwnIds, IsHost, ObjectsOf;
    if names != [] {
      var n := |names| - 1;
      var key, ids := NameKey(tenant, Host, "", names[n]), ParentIds(byName, tenant, names[..n]);
      ParentIdsMean(recs, byName, tenant, names[..n]);
      HostIsNamed(recs, byName, tenant, names[n]);
      if key in byName {
        assert (ids + [byName[key]])[..|ids|] == ids;
        assert IsHost(ObjectsOf(recs), tenant, names[n], byName[key]);
      } else {
        assert ids + [] == ids;
      }
    }
  }

  lemma HostIsNamed(recs: Recs, byName: map<string, string>, tenant: string, name: string)
    requires NamesOk(recs, byName) && OwnIds(ObjectsOf(recs)) && SlashFree(tenant)
    ensures var key := NameKey(tenant, Host, "", name);
      forall id :: IsHost(ObjectsOf(recs), tenant, name, id) <==> key in byName && byName[key] == id
  {
    hide SlashFree, NameKey;
    var key := NameKey(tenant, Host, "", name);
    assert SlashFree("") by { EmptyIsSlashFree(); }
    forall id ensures IsHost(ObjectsOf(recs), tenant, name, id) <==> key in byName && byName[key] == id {
      if id in recs {
        var o := recs[id].obj;
        assert ObjectsOf(recs)[id] == o;
        if KeyOf(o) == key { NameKeyIsInjective(o.tenant, o.kind, o.hostId, o.name, tenant, Host, "", name); }
      }
    }
  }

  lemma EmptyIsSlashFree()
    ensures SlashFree("")
  {}

  /** The services placed on a host. */
  ghost function PlacedOn(objs: map<string, Object>, host: string): set<string> {
    set x | x in objs && objs[x].kind == Service && objs[x].hostId != "" && objs[x].hostId == host
  }

  /** The edges of a catalog that follows the store: under a host the services placed on it, each once; under a host the
      hosts its effective specification names as parents, as far as they exist, in the order named; and every service
      with a host points to that host's entry. */
  lemma EdgesMean(c: Catalog, w: World, id: string)
    requires c.Follows(w) && id in w.objs
    ensures id in c.entries
    ensures multiset(At(c.children, id)) == multiset(PlacedOn(w.objs, id))
    ensures w.objs[id].kind == Service ==> At(c.parents, id) == []
    ensures w.objs[id].kind == Host ==>
      HostsNamed(w.objs, w.objs[id].tenant, Items(c.entries[id].rec.effective.parents), At(c.parents, id))
    ensures c.entries[id].host != null <==> w.objs[id].kind == Service && w.objs[id].hostId != ""
    ensures c.entries[id].host != null ==> c.entries[id].host.rec.obj == w.objs[w.objs[id].hostId]
  {
    hide WorldOk, FromConfig, SettingsStored, HostsNamed, Tidy, AllEdgesOk, At, ObjectsOf;
    c.CoherentMeans();
    c.Views();
    SameViews(c, id);
    FromTidy(c.Recs(), c.byName);
    RecordEdgesMean(c.Recs(), c.byName, c.children, c.parents, id);
    HostMeans(c, id);
  }

  lemma SameViews(c: Catalog, id: string)
    ensures id in c.Objects() <==> id in c.entries
    ensures id in c.entries ==> c.Objects()[id] == c.entries[id].rec.obj && c.Recs()[id] == c.entries[id].rec
  {}

  lemma RecordEdgesMean(recs: Recs, byName: map<string, string>, children: Edges, parents: Edges, id: string)
    requires WellFormed(ObjectsOf(recs)) && NamesOk(recs, byName) && id in recs
    requires AllEdgesOk(recs, byName, children, parents)
    ensures var objs := ObjectsOf(recs);
      && id in objs && objs[id] == recs[id].obj
      && multiset(At(children, id)) == multiset(PlacedOn(objs, id))
      && (objs[id].kind == Service ==> At(parents, id) == [])
      && (objs[id].kind == Host ==>
            HostsNamed(objs, objs[id].tenant, Items(recs[id].effective.parents), At(parents, id)))
  {
    hide HostsNamed, ParentsOf, SlashFree, NamesOk, PlacedOn, ServicesOf, WellFormed, At, NoStrays;
    var objs := ObjectsOf(recs);
    assert EdgesOk(recs, byName, children, parents, id);
    ServicesArePlaced(recs, id);
    ParentsOfMean(recs, byName, id);
  }

  lemma ServicesArePlaced(recs: Recs, id: string)
    ensures ServicesOf(recs, id) == PlacedOn(ObjectsOf(recs), id)
  {}

  lemma ParentsOfMean(recs: Recs, byName: map<string, string>, id: string)
    requires WellFormed(ObjectsOf(recs)) && NamesOk(recs, byName) && id in recs
    ensures recs[id].obj.kind == Service ==> ParentsOf(byName, recs[id]) == []
    ensures recs[id].obj.kind == Host ==>
      HostsNamed(ObjectsOf(recs), recs[id].obj.tenant, Items(recs[id].effective.parents), ParentsOf(byName, recs[id]))
  {
    hide HostsNamed, ParentIds, SlashFree, NamesOk, UniqueKeys, HostsPresent;
    assert ObjectsOf(recs)[id] == recs[id].obj;
    if recs[id].obj.kind == Host {
      ParentIdsMean(recs, byName, recs[id].obj.tenant, Items(recs[id].effective.parents));
    }
  }

  lemma HostMeans(c: Catalog, id: string)
    requires c.HostsOk() && WellFormed(c.Objects()) && id in c.entries
    ensures var o := c.entries[id].rec.obj;
      && (c.entries[id].host != null <==> o.kind == Service && o.hostId != "")
      && (c.entries[id].host != null ==> o.hostId in c.Objects() && c.entries[id].host.rec.obj == c.Objects()[o.hostId])
  {
    hide OwnIds, UniqueKeys;
    var o := c.entries[id].rec.obj;
    SameViews(c, id);
    SameViews(c, o.hostId);
    assert c.entries[id].host == HostOf(c.entries, o);
  }

  /** What the events do to the store: saving sets one object and nothing else; deleting takes the object and, of a
      host, its services; a reload replaces one tenant's objects and configuration. */
  lemma EventsMean(w: World, e: Event, id: string, tenant: string)
    requires WorldOk(w) && Possible(w, e)
    ensures var v := Next(w, e);
      match e
      case Saved(o) =>
        v.settings == w.settings && (id in v.objs <==> id == o.id || id in w.objs) &&
        (id in v.objs ==> v.objs[id] == if id == o.id then o else w.objs[id])
      case Deleted(t, gone) =>
        v.settings == w.settings && (id in v.objs ==> v.objs[id] == w.objs[id]) &&
        (id in v.objs <==> id in w.objs && id != gone && !(w.objs[id].kind == Service && w.objs[id].hostId == gone
                                                           && gone != ""))
      case Reloaded(t, s, listing, objs) =>
        && (id in v.objs && v.objs[id].tenant != t <==> id in w.objs && w.objs[id].tenant != t)
        && (id in w.objs && w.objs[id].tenant != t ==> v.objs[id] == w.objs[id])
        && (id in v.objs && v.objs[id].tenant == t <==> exists i :: 0 <= i < |listing| && listing[i].id == id)
        && (tenant in v.settings <==> tenant == t || tenant in w.settings)
        && (tenant in v.settings ==> v.settings[tenant] == if tenant == t then s else w.settings[tenant])
  {
    hide WellFormed, Indexable, SlashFree;
    match e
    case Saved(o) =>
    case Deleted(_, _) =>
    case Reloaded(t, s, listing, objs) =>
      assert id in Outside(objs, t) <==> id in Outside(w.objs, t);
      assert id in Outside(objs, t) ==> Outside(objs, t)[id] == objs[id] && Outside(w.objs, t)[id] == w.objs[id];
  }
}
