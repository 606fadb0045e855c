/** What applying, deleting and exporting bundle documents do to the stored configuration
    (internal/api/bundles.go, internal/storage/objects.go, internal/storage/resources.go), as functions. */
module BundleStore {
  import opened Basics
  import opened BundleModel

  // ---- the store --------------------------------------------------------------------------------

  /** A host or service. The specification is its JSON projection, which is what differences are taken of. */
  datatype Row = Row(folder: string, labels: Labels, spec: Body)

  /** A resource document with its envelope fields written into it. */
  datatype Res = Res(id: string, version: nat, createdAt: string, doc: Body)

  datatype Item = Object(row: Row) | Resource(res: Res)

  /** One tenant's hosts, services and resource documents by natural key. */
  type Store = map<Key, Item>

  /** Services belong to hosts, and rows and documents are where they should be. */
  ghost predicate StoreOk(s: Store) {
    && (forall k :: k in s ==> (k.ResourceKey? <==> s[k].Resource?))
    && (forall k :: k in s && k.ServiceKey? ==> HostKey(k.host) in s)
    && (forall k :: k in s && k.ResourceKey? ==> k.kind in RESOURCE_KINDS)
  }

  /** What lies outside: decoding a specification, the validity checks, and printing a label value. */
  datatype Env = Env(tenant: string, decode: Body -> Maybe<Body>, objectOk: (Store, Key, Row) -> bool,
                     docOk: (string, Body) -> bool, show: Json -> string)

  predicate NoNulls(b: Body) { forall k :: k in b ==> b[k] != Null }

  /** Decoding what was encoded gives it back, encodings hold no nulls, and strings print as themselves. */
  ghost predicate Faithful(env: Env) {
    && (forall b :: env.decode(b).Set? ==>
          env.decode(env.decode(b).value) == env.decode(b) && NoNulls(env.decode(b).value))
    && (forall t :: env.show(Str(t)) == t)
  }

  /** Rows as the store normalises them. */
  ghost predicate Normalised(env: Env, s: Store) {
    forall k :: k in s && s[k].Object? ==>
      s[k].row.folder != "" && env.decode(s[k].row.spec) == Set(s[k].row.spec) && NoNulls(s[k].row.spec)
  }

  /** The identifier and time a write would take. */
  datatype Stamp = Stamp(id: string, now: string)

  // ---- resource documents -----------------------------------------------------------------------

  const ENVELOPE: set<string> := {"id", "tenantId", "version", "createdAt", "updatedAt", "name"}

  function Strip(b: Body): Body { map k | k in b && k !in ENVELOPE :: b[k] }

  function LabelsOf(d: Doc): Labels { if d.meta.labels.Set? then d.meta.labels.value else map[] }

  function LabelJson(labels: Labels): Json { Obj(map k | k in labels :: Str(labels[k])) }

  /** What the document asks for: specification, then data, then labels if there are any. */
  function Desired(d: Doc): Body {
    var body := d.spec + d.data;
    if LabelsOf(d) == map[] then body else body["labels" := LabelJson(LabelsOf(d))]
  }

  function DocId(body: Body, stamp: Stamp): string {
    if Lookup(body, "id").Str? && Lookup(body, "id").str != "" then body["id"].str else stamp.id
  }

  function Inject(env: Env, body: Body, name: string, id: string, version: nat, createdAt: string, now: string): Body {
    body["id" := Str(id)]["tenantId" := Str(env.tenant)]["name" := Str(name)]["version" := Num(version as real)]
        ["createdAt" := Str(createdAt)]["updatedAt" := Str(now)]
  }

  /** Writing a document: a new version of the stored one, or a first version. */
  function Put(env: Env, prior: Maybe<Res>, name: string, body: Body, stamp: Stamp): Res {
    var id := if prior.Set? then prior.value.id else DocId(body, stamp);
    var version := if prior.Set? then prior.value.version + 1 else 1;
    var createdAt := if prior.Set? then prior.value.createdAt else stamp.now;
    Res(id, version, createdAt, Inject(env, body, name, id, version, createdAt, stamp.now))
  }

  /** A write keeps identity and creation time and counts versions; outside the envelope the document is the body. */
  lemma PutIsNextVersion(env: Env, prior: Maybe<Res>, name: string, body: Body, stamp: Stamp, f: string)
    ensures var r := Put(env, prior, name, body, stamp);
      && (prior.Set? ==>
            r.id == prior.value.id && r.version == prior.value.version + 1 && r.createdAt == prior.value.createdAt)
      && (prior.Unset? ==> r.version == 1 && r.createdAt == stamp.now)
      && (prior.Unset? ==>
            r.id == match Lookup(body, "id") case Str(id) => (if id == "" then stamp.id else id) case _ => stamp.id)
      && (f !in ENVELOPE ==> Lookup(r.doc, f) == Lookup(body, f))
      && Lookup(r.doc, "name") == Str(name) && Lookup(r.doc, "id") == Str(r.id)
      && Lookup(r.doc, "version") == Num(r.version as real) && Lookup(r.doc, "tenantId") == Str(env.tenant)
      && Lookup(r.doc, "createdAt") == Str(r.createdAt) && Lookup(r.doc, "updatedAt") == Str(stamp.now)
  {}

  type Diff = map<string, (Json, Json)>

  /** Fields the document sets to something else than what is stored; fields it does not mention are not managed. */
  function DiffDocs(stored: Body, d: Doc): Diff {
    var cur, des := Strip(stored), Desired(d);
    map k | k in cur.Keys + des.Keys && Lookup(des, k) != Null && Lookup(cur, k) != Lookup(des, k) ::
      (Lookup(cur, k), Lookup(des, k))
  }

  function DiffSpecs(was: Body, now: Body): Diff {
    map k | k in was.Keys + now.Keys && Lookup(was, k) != Lookup(now, k) :: (Lookup(was, k), Lookup(now, k))
  }

  lemma NoSpecDiffIff(a: Body, b: Body)
    requires NoNulls(a) && NoNulls(b)
    ensures DiffSpecs(a, b) == map[] <==> a == b
  {
    if DiffSpecs(a, b) == map[] {
      forall k ensures Lookup(a, k) == Lookup(b, k) {
        assert k in DiffSpecs(a, b) <==> Lookup(a, k) != Lookup(b, k);
      }
      forall k ensures k in a <==> k in b { assert Lookup(a, k) == Lookup(b, k); }
    }
  }

  // ---- applying one document --------------------------------------------------------------------

  datatype ApplyError = BadSpec | UnknownHost | Rejected

  datatype Outcome = NoChange | Created | Updated | Failed(error: ApplyError)

  function OrSlash(folder: string): string { if folder == "" then "/" else folder }

  predicate IsObject(d: Doc) { d.kind == "Host" || d.kind == "Service" }

  function RowOf(d: Doc, spec: Body): Row { Row(OrSlash(d.meta.folder), LabelsOf(d), spec) }

  predicate SameRow(row: Row, d: Doc, spec: Body) {
    OrSlash(d.meta.folder) == row.folder && LabelsOf(d) == row.labels && DiffSpecs(row.spec, spec) == map[]
  }

  function ApplyObject(env: Env, s: Store, d: Doc): (Store, Outcome) {
    var k := KeyOf(d);
    match env.decode(d.spec)
    case Unset => (s, Failed(BadSpec))
    case Set(spec) =>
      if d.kind == "Service" && HostKey(d.meta.host) !in s then (s, Failed(UnknownHost))
      else if k in s && s[k].Object? && SameRow(s[k].row, d, spec) then (s, NoChange)
      else if !env.objectOk(s, k, RowOf(d, spec)) then (s, Failed(Rejected))
      else (s[k := Object(RowOf(d, spec))], if k in s then Updated else Created)
  }

  function Stored(s: Store, k: Key): Maybe<Res> { if k in s && s[k].Resource? then Set(s[k].res) else Unset }

  function ApplyResource(env: Env, s: Store, d: Doc, stamp: Stamp): (Store, Outcome) {
    var k := KeyOf(d);
    var body := Desired(d)["name" := Str(d.meta.name)];
    if d.kind !in RESOURCE_KINDS then (s, NoChange)
    else if !env.docOk(d.kind, body) then (s, Failed(Rejected))
    else if Stored(s, k).Set? && DiffDocs(Stored(s, k).value.doc, d) == map[] then (s, NoChange)
    else (s[k := Resource(Put(env, Stored(s, k), d.meta.name, body, stamp))], if k in s then Updated else Created)
  }

  function ApplyOne(env: Env, s: Store, d: Doc, stamp: Stamp): (Store, Outcome) {
    if IsObject(d) then ApplyObject(env, s, d) else ApplyResource(env, s, d, stamp)
  }

  /** A document is in force when the store already says what it says. */
  predicate InForce(env: Env, s: Store, d: Doc) {
    var k := KeyOf(d);
    if IsObject(d) then
      && env.decode(d.spec).Set? && (d.kind == "Service" ==> HostKey(d.meta.host) in s)
      && k in s && s[k].Object? && SameRow(s[k].row, d, env.decode(d.spec).value)
    else
      d.kind in RESOURCE_KINDS ==>
        && env.docOk(d.kind, Desired(d)["name" := Str(d.meta.name)])
        && Stored(s, k).Set? && DiffDocs(Stored(s, k).value.doc, d) == map[]
  }

  /** A document that sets a field of the envelope can never be in force: the store keeps its own value there. */
  predicate SetsEnvelope(d: Doc) {
    d.kind in RESOURCE_KINDS && exists k :: k in ENVELOPE && Lookup(Desired(d), k) != Null
  }

  lemma NothingToDoIff(env: Env, s: Store, d: Doc, stamp: Stamp)
    ensures ApplyOne(env, s, d, stamp).1 == NoChange <==> InForce(env, s, d)
  {
    hide DiffDocs, SameRow, Desired;
    if IsObject(d) { assert env.decode(d.spec).Set? || env.decode(d.spec) == Unset; }
  }

  /** Applying writes at most the document's own entry, and only when it reports a change. */
  lemma AppliesOnlyItself(env: Env, s: Store, d: Doc, stamp: Stamp)
    ensures var (s', out) := ApplyOne(env, s, d, stamp);
      && (out == NoChange || out.Failed? ==> s' == s)
      && (out == Created || out == Updated ==> Supported(d.kind) && s' == s[KeyOf(d) := s'[KeyOf(d)]] && KeyOf(d) in s')
      && (out == Created ==> KeyOf(d) !in s) && (out == Updated ==> KeyOf(d) in s)
      && (!out.Failed? && Supported(d.kind) ==> s'.Keys == s.Keys + {KeyOf(d)})
  {
    hide DiffDocs, SameRow, Desired, Put;
  }

  lemma ApplyKeepsStore(env: Env, s: Store, d: Doc, stamp: Stamp)
    requires StoreOk(s)
    ensures StoreOk(ApplyOne(env, s, d, stamp).0)
  {
    hide DiffDocs, SameRow, Desired, Put;
  }

  lemma ApplyNormalises(env: Env, s: Store, d: Doc, stamp: Stamp)
    requires Faithful(env) && Normalised(env, s)
    ensures Normalised(env, ApplyOne(env, s, d, stamp).0)
  {
    hide DiffDocs, SameRow, Desired, Put;
    if env.decode(d.spec).Set? { assert env.decode(env.decode(d.spec).value) == env.decode(d.spec); }
  }

  /** After a successful write of a resource document exactly the envelope fields it sets still differ. */
  lemma WrittenDiffers(env: Env, prior: Maybe<Res>, d: Doc, stamp: Stamp)
    ensures var doc := Put(env, prior, d.meta.name, Desired(d)["name" := Str(d.meta.name)], stamp).doc;
      DiffDocs(doc, d) == map[] <==> forall k :: k in ENVELOPE ==> Lookup(Desired(d), k) == Null
  {
    hide Desired, DocId;
    var body := Desired(d)["name" := Str(d.meta.name)];
    var doc := Put(env, prior, d.meta.name, body, stamp).doc;
    var diff := DiffDocs(doc, d);
    forall k ensures k in diff <==> k in ENVELOPE && Lookup(Desired(d), k) != Null {
      if k !in ENVELOPE {
        assert k in doc <==> k in Desired(d);
        assert Lookup(Strip(doc), k) == Lookup(Desired(d), k);
      } else {
        assert k !in Strip(doc);
      }
    }
    if diff == map[] {
      forall k | k in ENVELOPE ensures Lookup(Desired(d), k) == Null { assert k !in diff; }
    } else {
      assert diff.Keys != {};
      var k :| k in diff;
    }
  }

  /** Stored or not, a document without differences sets no envelope field. */
  lemma NoDiffMeansNoEnvelope(stored: Body, d: Doc)
    requires DiffDocs(stored, d) == map[]
    ensures forall k :: k in ENVELOPE ==> Lookup(Desired(d), k) == Null
  {
    hide Desired;
    forall k | k in ENVELOPE ensures Lookup(Desired(d), k) == Null {
      assert k !in Strip(stored) && k !in DiffDocs(stored, d);
    }
  }

  /** Applied once, a document is in force from then on, exactly when it sets no envelope field. */
  lemma AppliedIsInForceIff(env: Env, s: Store, d: Doc, stamp: Stamp)
    requires Faithful(env) && StoreOk(s)
    requires !ApplyOne(env, s, d, stamp).1.Failed?
    ensures InForce(env, ApplyOne(env, s, d, stamp).0, d) <==> !SetsEnvelope(d)
  {
    hide DiffDocs, Desired, Put, DiffSpecs, NoNulls;
    var k := KeyOf(d);
    if IsObject(d) {
      var spec := env.decode(d.spec).value;
      NoSpecDiffIff(spec, spec);
    } else if d.kind in RESOURCE_KINDS {
      WrittenDiffers(env, Stored(s, k), d, stamp);
      if Stored(s, k).Set? && DiffDocs(Stored(s, k).value.doc, d) == map[] {
        NoDiffMeansNoEnvelope(Stored(s, k).value.doc, d);
      }
    }
  }

  /** A document that sets, say, its own identifier is written again by every apply. */
  lemma EnvelopeFieldIsRewritten(env: Env, s: Store, d: Doc, stamp: Stamp, stamp': Stamp, f: string)
    requires d.kind in RESOURCE_KINDS && f in ENVELOPE && f in d.spec && d.spec[f] != Null && f !in d.data
    requires env.docOk(d.kind, Desired(d)["name" := Str(d.meta.name)])
    ensures ApplyOne(env, ApplyOne(env, s, d, stamp).0, d, stamp').1 == Updated
  {
    hide Put, DiffDocs;
    KindsDiffer();
    LabelsAreNotEnvelope();
    assert Lookup(Desired(d), f) == d.spec[f];
    var body := Desired(d)["name" := Str(d.meta.name)];
    WrittenDiffers(env, Stored(s, KeyOf(d)), d, stamp);
    if Stored(s, KeyOf(d)).Set? && DiffDocs(Stored(s, KeyOf(d)).value.doc, d) == map[] {
      NoDiffMeansNoEnvelope(Stored(s, KeyOf(d)).value.doc, d);
    }
  }

  lemma KindsDiffer()
    ensures "Host" !in RESOURCE_KINDS && "Service" !in RESOURCE_KINDS
  {}

  lemma LabelsAreNotEnvelope()
    ensures "labels" !in ENVELOPE
  {}

  /** What a document says about one field. */
  function FieldOf(d: Doc, f: string): Json {
    if f == "labels" && LabelsOf(d) != map[] then LabelJson(LabelsOf(d))
    else if f in d.data then d.data[f]
    else Lookup(d.spec, f)
  }

  /** What was applied is what can be read: folder, labels and specification of a row; of a document every field
      outside the envelope, labels winning over data and data over the specification. */
  lemma AppliedReadsBack(env: Env, s: Store, d: Doc, stamp: Stamp, f: string)
    requires var out := ApplyOne(env, s, d, stamp).1; out == Created || out == Updated
    requires f !in ENVELOPE
    ensures var (s', k) := (ApplyOne(env, s, d, stamp).0, KeyOf(d));
      && k in s'
      && (IsObject(d) ==>
            var folder := if d.meta.folder == "" then "/" else d.meta.folder;
            s'[k] == Object(Row(folder, LabelsOf(d), env.decode(d.spec).value)))
      && (!IsObject(d) ==> s'[k].Resource? && Lookup(s'[k].res.doc, f) == FieldOf(d, f))
  {
    hide DiffDocs, SameRow, Put, LabelJson, ENVELOPE;
    if !IsObject(d) {
      PutIsNextVersion(env, Stored(s, KeyOf(d)), d.meta.name, Desired(d)["name" := Str(d.meta.name)], stamp, f);
      NameIsEnvelope();
    }
  }

  lemma NameIsEnvelope()
    ensures "name" in ENVELOPE
  {}
}
