/** What one catalog entry is made of (internal/catalog/catalog.go, internal/model/objects.go): the
    effective specification along the template chain, the resolved check command, and the name key. */
module CatalogModel {
  import opened Basics

  datatype Kind = Host | Service

  function KindText(k: Kind): string {
    match k
    case Host => "host"
    case Service => "service"
  }

  /** The fields of a specification that the index looks at. */
  datatype Spec = Spec(templates: Maybe<seq<string>>, parents: Maybe<seq<string>>, checkCommand: string,
                       args: Maybe<seq<string>>, checkPeriod: string, vars: map<string, string>)

  const NO_SPEC := Spec(Unset, Unset, "", Unset, "", map[])
  const DEFAULTS := Spec(Unset, Unset, "", Unset, "24x7", map[])

  datatype Object = Object(id: string, tenant: string, kind: Kind, name: string, hostId: string, spec: Spec)

  datatype CommandType = Exec | Builtin | Agent | Passive

  datatype Command = Command(kind: CommandType, line: seq<string>, env: bool)

  datatype Period = Period(name: string, definition: string)

  /** A tenant's templates, commands and periods by name. */
  datatype Config = Config(templates: map<string, Spec>, commands: map<string, Command>, periods: map<string, Period>)

  function Items(m: Maybe<seq<string>>): seq<string> { if m.Set? then m.value else [] }

  // ---- effective specification ------------------------------------------------------------------

  /** What the child sets wins; lists are replaced, not joined, and variables are merged key by key. */
  function Merge(base: Spec, child: Spec): Spec {
    Spec(if child.templates.Set? then child.templates else base.templates,
         if child.parents.Set? then child.parents else base.parents,
         if child.checkCommand != "" then child.checkCommand else base.checkCommand,
         if child.args.Set? then child.args else base.args,
         if child.checkPeriod != "" then child.checkPeriod else base.checkPeriod,
         base.vars + child.vars)
  }

  /** The templates resolved so far: merged specification, names met, and the chain in order of meeting. */
  datatype Resolution = Broken | Resolved(spec: Spec, seen: set<string>, chain: seq<string>)

  function Resolve(templates: map<string, Spec>, names: seq<string>, acc: Spec, seen: set<string>, chain: seq<string>)
    : (r: Resolution)
    ensures r.Resolved? ==> seen <= r.seen
    decreases templates.Keys - seen, |names|
  {
    if names == [] then Resolved(acc, seen, chain)
    else
      var n := names[0];
      if n in seen || n !in templates then Broken
      else
        match Resolve(templates, Items(templates[n].templates), NO_SPEC, seen + {n}, chain + [n])
        case Broken => Broken
        case Resolved(base, seen', chain') =>
          Resolve(templates, names[1..], Merge(acc, Merge(base, templates[n])), seen', chain')
  }

  datatype Effective = ConfigError | Effective(spec: Spec, chain: seq<string>)

  function EffectiveSpec(o: Object, templates: map<string, Spec>): Effective {
    match Resolve(templates, Items(o.spec.templates), NO_SPEC, {}, [])
    case Broken => ConfigError
    case Resolved(spec, _, chain) =>
      Effective(Merge(Merge(DEFAULTS, spec), o.spec).(templates := o.spec.templates), chain)
  }

  /** The templates of a resolution in the order in which they take effect: bases before what builds on them. */
  function Order(templates: map<string, Spec>, names: seq<string>, seen: set<string>, chain: seq<string>): seq<string>
    decreases templates.Keys - seen, |names|
  {
    if names == [] then []
    else
      var n := names[0];
      if n in seen || n !in templates then []
      else
        var bases := Items(templates[n].templates);
        match Resolve(templates, bases, NO_SPEC, seen + {n}, chain + [n])
        case Broken => []
        case Resolved(_, seen', chain') =>
          Order(templates, bases, seen + {n}, chain + [n]) + [n] + Order(templates, names[1..], seen', chain')
  }

  /** Layers one over the other, the last on top. */
  function Overlay(layers: seq<Spec>): Spec {
    if layers == [] then NO_SPEC else Merge(Overlay(layers[..|layers| - 1]), layers[|layers| - 1])
  }

  function SpecsOf(templates: map<string, Spec>, names: seq<string>): seq<Spec> {
    seq(|names|, i requires 0 <= i < |names| => if names[i] in templates then templates[names[i]] else NO_SPEC)
  }

  lemma MergeLaws(a: Spec, b: Spec, c: Spec)
    ensures Merge(Merge(a, b), c) == Merge(a, Merge(b, c)) && Merge(a, NO_SPEC) == a && Merge(NO_SPEC, a) == a
  {
    assert (a.vars + b.vars) + c.vars == a.vars + (b.vars + c.vars);
    assert map[] + a.vars == a.vars && a.vars + map[] == a.vars;
  }

  lemma {:induction false} OverlayJoins(a: seq<Spec>, b: seq<Spec>)
    ensures Overlay(a + b) == Merge(Overlay(a), Overlay(b))
  {
    hide Merge, NO_SPEC;
    MergeLaws(Overlay(a), NO_SPEC, NO_SPEC);
    if b == [] {
      assert a + b == a;
    } else {
      var n := |b| - 1;
      assert (a + b)[..|a + b| - 1] == a + b[..n];
      OverlayJoins(a, b[..n]);
      MergeLaws(Overlay(a), Overlay(b[..n]), b[n]);
    }
  }

  lemma OverlayOfOne(x: Spec)
    ensures Overlay([x]) == x
  {
    MergeLaws(x, x, x);
  }

  lemma OverlayOfThree(templates: map<string, Spec>, bases: seq<string>, n: string, rest: seq<string>)
    requires n in templates
    ensures Overlay(SpecsOf(templates, bases + [n] + rest)) ==
      Merge(Merge(Overlay(SpecsOf(templates, bases)), templates[n]), Overlay(SpecsOf(templates, rest)))
  {
    hide Merge, Overlay;
    var a, b, c := SpecsOf(templates, bases), [templates[n]], SpecsOf(templates, rest);
    assert SpecsOf(templates, bases + [n] + rest) == (a + b) + c;
    OverlayJoins(a + b, c);
    OverlayJoins(a, b);
    OverlayOfOne(templates[n]);
  }

  /** Resolution by recursive merging is one overlay of the templates in their order. */
  lemma {:induction false} ResolveIsOverlay(templates: map<string, Spec>, names: seq<string>, acc: Spec,
                                            seen: set<string>, chain: seq<string>)
    requires Resolve(templates, names, acc, seen, chain).Resolved?
    ensures Resolve(templates, names, acc, seen, chain).spec ==
      Merge(acc, Overlay(SpecsOf(templates, Order(templates, names, seen, chain))))
    decreases templates.Keys - seen, |names|
  {
    hide Merge, Overlay, NO_SPEC;
    if names == [] {
      OverlayOfNone(templates);
      MergeLaws(acc, acc, acc);
    } else {
      var n := names[0];
      var bases := Items(templates[n].templates);
      var r := Resolve(templates, bases, NO_SPEC, seen + {n}, chain + [n]);
      ResolveIsOverlay(templates, bases, NO_SPEC, seen + {n}, chain + [n]);
      var below := Order(templates, bases, seen + {n}, chain + [n]);
      MergeLaws(Overlay(SpecsOf(templates, below)), acc, acc);
      var top := Merge(r.spec, templates[n]);
      ResolveIsOverlay(templates, names[1..], Merge(acc, top), r.seen, r.chain);
      var rest := Order(templates, names[1..], r.seen, r.chain);
      OverlayOfThree(templates, below, n, rest);
      MergeLaws(acc, top, Overlay(SpecsOf(templates, rest)));
    }
  }

  lemma OverlayOfNone(templates: map<string, Spec>)
    ensures Overlay(SpecsOf(templates, [])) == NO_SPEC
  {}

  /** The order lists existing templates not met before, each once, and the resolution met and chained exactly them. */
  ghost predicate OnceEach(templates: map<string, Spec>, seen: set<string>, chain: seq<string>, order: seq<string>,
                           seen': set<string>, chain': seq<string>)
  {
    && seen' == seen + (set n | n in order) && (forall n :: n in order ==> n in templates && n !in seen)
    && (forall i, j :: 0 <= i < j < |order| ==> order[i] != order[j])
    && multiset(chain') == multiset(chain) + multiset(order)
  }

  lemma OnceJoins(templates: map<string, Spec>, seen: set<string>, chain: seq<string>, n: string,
                  below: seq<string>, seen1: set<string>, chain1: seq<string>,
                  rest: seq<string>, seen2: set<string>, chain2: seq<string>)
    requires n in templates && n !in seen
    requires OnceEach(templates, seen + {n}, chain + [n], below, seen1, chain1)
    requires OnceEach(templates, seen1, chain1, rest, seen2, chain2)
    ensures OnceEach(templates, seen, chain, below + [n] + rest, seen2, chain2)
  {
    var order := below + [n] + rest;
    assert forall x :: x in order <==> x in below || x == n || x in rest;
    assert multiset(order) == multiset(below) + multiset{n} + multiset(rest);
    assert multiset(chain + [n]) == multiset(chain) + multiset{n};
    forall i, j | 0 <= i < j < |order| ensures order[i] != order[j] {
      if i < |below| <= j { assert order[i] in below; }
      if j > |below| { assert order[j] in rest; }
    }
  }

  /** No template takes effect twice, all of them exist, and the chain names exactly them. */
  lemma {:induction false} EachTemplateOnce(templates: map<string, Spec>, names: seq<string>, acc: Spec,
                                            seen: set<string>, chain: seq<string>)
    requires Resolve(templates, names, acc, seen, chain).Resolved?
    ensures var r := Resolve(templates, names, acc, seen, chain);
      OnceEach(templates, seen, chain, Order(templates, names, seen, chain), r.seen, r.chain)
    decreases templates.Keys - seen, |names|
  {
    hide Merge, NO_SPEC, OnceEach;
    if names == [] {
      NothingOnce(templates, seen, chain);
    } else {
      var n := names[0];
      var bases := Items(templates[n].templates);
      var r := Resolve(templates, bases, NO_SPEC, seen + {n}, chain + [n]);
      EachTemplateOnce(templates, bases, NO_SPEC, seen + {n}, chain + [n]);
      var top := Merge(acc, Merge(r.spec, templates[n]));
      EachTemplateOnce(templates, names[1..], top, r.seen, r.chain);
      var r' := Resolve(templates, names[1..], top, r.seen, r.chain);
      OnceJoins(templates, seen, chain, n, Order(templates, bases, seen + {n}, chain + [n]), r.seen, r.chain,
                Order(templates, names[1..], r.seen, r.chain), r'.seen, r'.chain);
    }
  }

  lemma NothingOnce(templates: map<string, Spec>, seen: set<string>, chain: seq<string>)
    ensures OnceEach(templates, seen, chain, [], seen, chain)
  {}

  /** What takes effect on an object: defaults at the bottom, then its templates in order, then its own settings. */
  function Layers(o: Object, templates: map<string, Spec>): seq<Spec> {
    [DEFAULTS] + SpecsOf(templates, Order(templates, Items(o.spec.templates), {}, [])) + [o.spec]
  }

  lemma EffectiveIsOverlay(o: Object, templates: map<string, Spec>)
    requires EffectiveSpec(o, templates).Effective?
    ensures EffectiveSpec(o, templates).spec == Overlay(Layers(o, templates)).(templates := o.spec.templates)
  {
    hide Merge, Overlay, Order, NO_SPEC, DEFAULTS;
    var names := Items(o.spec.templates);
    ResolveIsOverlay(templates, names, NO_SPEC, {}, []);
    var middle := SpecsOf(templates, Order(templates, names, {}, []));
    MergeLaws(Overlay(middle), DEFAULTS, DEFAULTS);
    OverlayJoins([DEFAULTS] + middle, [o.spec]);
    OverlayJoins([DEFAULTS], middle);
    OverlayOfOne(DEFAULTS);
    OverlayOfOne(o.spec);
  }

  /** In an overlay each field has the value of the last layer that sets it, variables key by key. */
  lemma {:induction false} LastSetterWins(layers: seq<Spec>, i: nat, v: string)
    requires i < |layers|
    ensures layers[i].checkCommand != "" && (forall j :: i < j < |layers| ==> layers[j].checkCommand == "") ==>
      Overlay(layers).checkCommand == layers[i].checkCommand
    ensures layers[i].checkPeriod != "" && (forall j :: i < j < |layers| ==> layers[j].checkPeriod == "") ==>
      Overlay(layers).checkPeriod == layers[i].checkPeriod
    ensures layers[i].parents.Set? && (forall j :: i < j < |layers| ==> layers[j].parents.Unset?) ==>
      Overlay(layers).parents == layers[i].parents
    ensures layers[i].args.Set? && (forall j :: i < j < |layers| ==> layers[j].args.Unset?) ==>
      Overlay(layers).args == layers[i].args
    ensures v in layers[i].vars && (forall j :: i < j < |layers| ==> v !in layers[j].vars) ==>
      v in Overlay(layers).vars && Overlay(layers).vars[v] == layers[i].vars[v]
  {
    var n := |layers| - 1;
    if i < n {
      LastSetterWins(layers[..n], i, v);
      assert forall j :: 0 <= j < n ==> layers[..n][j] == layers[j];
    }
  }

  // ---- check command ----------------------------------------------------------------------------

  /** What to run; `kind` is unset for an entry with a configuration error. */
  datatype Run = Run(kind: Maybe<CommandType>, builtin: string, argv: seq<string>, macroArgs: seq<string>, env: bool)

  const NO_RUN := Run(Unset, "", [], [], false)

  datatype Resolved = Unknown | Panics | Runs(run: Run)

  /** A reference that names a stored command instead of giving its class. */
  predicate IsNamed(ref: string) {
    && ref != "" && ref != "passive"
    && !HasPrefix(ref, "builtin:") && !HasPrefix(ref, "exec:") && !HasPrefix(ref, "agent:")
  }

  function ResolveCommand(spec: Spec, commands: map<string, Command>): Resolved {
    var ref, args := spec.checkCommand, Items(spec.args);
    if ref == "passive" || ref == "" then Runs(Run(Set(Passive), "", [], args, false))
    else if HasPrefix(ref, "builtin:") then Runs(Run(Set(Builtin), TrimPrefix(ref, "builtin:"), args, args, false))
    else if HasPrefix(ref, "exec:") then Runs(Run(Set(Exec), "", [TrimPrefix(ref, "exec:")] + args, args, false))
    else if HasPrefix(ref, "agent:") then
      Runs(Run(Set(Agent), "", [TrimPrefix(TrimPrefix(ref, "agent:"), "exec:")] + args, args, false))
    else if ref !in commands then Unknown
    else
      var c := commands[ref];
      match c.kind
      case Builtin =>
        // The code slices the line from its second word on, which fails for an empty line.
        if c.line == [] then Panics else Runs(Run(Set(Builtin), c.line[0], c.line[1..], args, c.env))
      case Passive => Runs(Run(Set(Passive), "", [], args, c.env))
      case _ => Runs(Run(Set(c.kind), "", c.line, args, c.env))
  }

  /** Resolution fails hard for exactly one kind of configuration: a stored builtin without a line. */
  lemma PanicsIff(spec: Spec, commands: map<string, Command>)
    ensures ResolveCommand(spec, commands) == Panics <==>
      && IsNamed(spec.checkCommand) && spec.checkCommand in commands
      && commands[spec.checkCommand].kind == Builtin && commands[spec.checkCommand].line == []
  {}

  // ---- an entry without its links ---------------------------------------------------------------

  datatype Rec = Rec(obj: Object, effective: Spec, chain: seq<string>, run: Run, period: Maybe<Period>)

  /** An object that cannot be resolved is still indexed, with defaults. */
  function Defaulted(o: Object): Rec { Rec(o, DEFAULTS, [], NO_RUN, Unset) }

  predicate Indexable(o: Object, cfg: Config) {
    var e := EffectiveSpec(o, cfg.templates);
    e.Effective? ==> ResolveCommand(e.spec, cfg.commands) != Panics
  }

  function Indexed(o: Object, cfg: Config): (r: Rec)
    requires Indexable(o, cfg)
    ensures r.obj == o
  {
    match EffectiveSpec(o, cfg.templates)
    case ConfigError => Defaulted(o)
    case Effective(spec, chain) =>
      match ResolveCommand(spec, cfg.commands)
      case Unknown => Defaulted(o)
      case Runs(run) =>
        Rec(o, spec, chain, run, if spec.checkPeriod in cfg.periods then Set(cfg.periods[spec.checkPeriod]) else Unset)
  }

  // ---- names ------------------------------------------------------------------------------------

  function NameKey(tenant: string, kind: Kind, hostId: string, name: string): string {
    tenant + "/" + KindText(kind) + "/" + hostId + "/" + name
  }

  function KeyOf(o: Object): string { NameKey(o.tenant, o.kind, o.hostId, o.name) }

  lemma KindTextIsFaithful(k: Kind, k': Kind)
    ensures SlashFree(KindText(k)) && (KindText(k) == KindText(k') ==> k == k')
    ensures SlashFree(KindText(k'))
  {
    if k != k' { assert KindText(k)[0] != KindText(k')[0]; }
  }

  /** With slash-free tenants and host ids the joined key determines its four parts, even if names contain slashes. */
  lemma NameKeyIsInjective(t: string, k: Kind, h: string, n: string, t': string, k': Kind, h': string, n': string)
    requires SlashFree(t) && SlashFree(t') && SlashFree(h) && SlashFree(h')
    requires NameKey(t, k, h, n) == NameKey(t', k', h', n')
    ensures t == t' && k == k' && h == h' && n == n'
  {
    hide KindText;
    var r2, r2' := h + "/" + n, h' + "/" + n';
    var r1, r1' := KindText(k) + "/" + r2, KindText(k') + "/" + r2';
    assert NameKey(t, k, h, n) == t + "/" + r1 && NameKey(t', k', h', n') == t' + "/" + r1';
    FirstSlashSplits(t, r1, t', r1');
    KindTextIsFaithful(k, k');
    FirstSlashSplits(KindText(k), r2, KindText(k'), r2');
    FirstSlashSplits(h, n, h', n');
  }

  /** A key starts with a tenant's prefix exactly when it belongs to that tenant. */
  lemma PrefixIsTenant(tenant: string, other: string, rest: string)
    requires SlashFree(tenant) && SlashFree(other)
    ensures HasPrefix(other + "/" + rest, tenant + "/") <==> tenant == other
  {
    var s, p := other + "/" + rest, tenant + "/";
    assert s[..|other| + 1] == other + "/";
    if HasPrefix(s, p) {
      assert s == tenant + "/" + s[|p|..];
      FirstSlashSplits(tenant, s[|p|..], other, rest);
    }
  }
}
