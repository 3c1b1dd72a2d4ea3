/** The signed version history of the video service: imports, revisions, and the check that walks
    a version's ancestors. Tables are those of one tenant. */
module VideoVersions {
  import opened Options
  import opened VideoNames

  datatype Manifest = Manifest(
    version: Id, project: Id, source: Digest, video: Digest,
    parent: Option<Id>, parentSeal: Option<Digest>,
    operation: string, options: Revision, fingerprint: Digest,
    rest: string)              // title, licence, tags, media, relations, processing, time

  datatype Proof = Proof(text: string)
  datatype Sealed = Sealed(manifest: Manifest, proof: Proof)

  // What an operation was asked to do, after normalisation.
  datatype Revision =
    | Origin(text: string)
    | Metadata(note: string)
    | Caption(text: string)
    | Trim(start: real, end: Float)

  // A double as far as the checks tell them apart; NoOrder is NaN and minus infinity.
  datatype Float = Finite(r: real) | Infinite | NoOrder

  datatype Row = Row(project: Id, parent: Option<Id>, source: Digest, output: Digest, operation: string,
                     options: Revision, fingerprint: Digest, sealed: Sealed)

  type Rows = map<Id, Row>

  // What made an imported file: the demo backend, or a provider, with the remote id that the worker's
  // copy of the job had.
  datatype Generator = DemoBackend(job: Id) | Provider(backend: string, job: Id, remote: Option<string>)

  // What is hashed into the fingerprint of a version.
  datatype Identity =
    | Imported(project: Id, sha: Digest, origin: string, generator: Option<Generator>)
    | Revised(project: Id, parent: Id, source: Digest, options: Revision)

  // SHA-256 and the signing key, of which only these laws are used.
  datatype Crypto = Crypto(
    commit: Sealed -> Digest,
    fingerprint: Identity -> Digest,
    sign: (Manifest, nat) -> Proof,
    accepts: Sealed -> bool)

  ghost predicate SignsSoundly(c: Crypto) {
    forall m: Manifest, r: nat :: c.accepts(Sealed(m, c.sign(m, r)))
  }

  // Two different sealed manifests, one of each list, that have the same hash.
  ghost predicate Collide(c: Crypto, s: seq<Sealed>, t: seq<Sealed>) {
    exists i, j | 0 <= i < |s| && 0 <= j < |t| :: c.commit(s[i]) == c.commit(t[j]) && s[i] != t[j]
  }

  // The fingerprint takes two identities for one.
  ghost predicate Confused(c: Crypto, i: Identity, j: Identity) {
    i != j && c.fingerprint(i) == c.fingerprint(j)
  }

  // ----- lineage

  // One link of the walk: the child's signed manifest names exactly this parent.
  predicate Links(c: Crypto, project: Id, child: Row, parent: Row) {
    && parent.project == project
    && c.accepts(parent.sealed)
    && child.sealed.manifest.parentSeal == Some(c.commit(parent.sealed))
    && child.source == parent.output
  }

  // From row v, exactly n good links lead to a row without a parent.
  ghost predicate Lineage(c: Crypto, rows: Rows, project: Id, v: Row, n: nat)
    decreases n
  {
    if v.parent == None then n == 0 && v.sealed.manifest.parentSeal == None
    else
      && n > 0 && v.parent.value in rows
      && Links(c, project, v, rows[v.parent.value])
      && Lineage(c, rows, project, rows[v.parent.value], n - 1)
  }

  lemma {:induction false} LineageUnique(c: Crypto, rows: Rows, project: Id, v: Row, m: nat, n: nat)
    requires Lineage(c, rows, project, v, m) && Lineage(c, rows, project, v, n)
    ensures m == n
    decreases m
  {
    if v.parent.Some? {
      LineageUnique(c, rows, project, rows[v.parent.value], m - 1, n - 1);
    }
  }

  // Step i of the walk from v: the parent is of the same project, is signed, is named by its child's signed
  // manifest and is what the child was made from.
  ghost predicate LinkAt(c: Crypto, rows: Rows, project: Id, v: Row, i: nat) {
    && Up(rows, v, i).Some? && Up(rows, v, i + 1).Some?
    && var child, parent := Up(rows, v, i).value, Up(rows, v, i + 1).value;
       && parent.project == project && c.accepts(parent.sealed) && parent.output == child.source
       && child.sealed.manifest.parentSeal == Some(c.commit(parent.sealed))
  }

  ghost predicate RootAt(rows: Rows, v: Row, n: nat) {
    && Up(rows, v, n).Some? && Up(rows, v, n).value.parent == None
    && Up(rows, v, n).value.sealed.manifest.parentSeal == None
  }

  // A good lineage of n links has n such steps, and then a root.
  lemma {:induction false} LineageLinks(c: Crypto, rows: Rows, project: Id, v: Row, n: nat)
    ensures Lineage(c, rows, project, v, n)
       <==> (forall i: nat | i < n :: LinkAt(c, rows, project, v, i)) && RootAt(rows, v, n)
    decreases n
  {
    if n > 0 {
      FirstLink(c, rows, project, v);
      if v.parent.Some? && v.parent.value in rows {
        var p := rows[v.parent.value];
        LineageLinks(c, rows, project, p, n - 1);
        forall i: nat | i < n - 1
          ensures LinkAt(c, rows, project, v, i + 1) == LinkAt(c, rows, project, p, i)
        {
          LaterLink(c, rows, project, v, i);
        }
        assert forall i: nat | 0 < i < n :: LinkAt(c, rows, project, v, i) == LinkAt(c, rows, project, p, i - 1);
      }
    }
  }

  lemma FirstLink(c: Crypto, rows: Rows, project: Id, v: Row)
    ensures LinkAt(c, rows, project, v, 0)
       <==> v.parent.Some? && v.parent.value in rows && Links(c, project, v, rows[v.parent.value])
  {
    assert Up(rows, v, 0) == Some(v);
    if v.parent.Some? && v.parent.value in rows {
      assert Up(rows, v, 1) == Up(rows, rows[v.parent.value], 0);
    }
  }

  lemma LaterLink(c: Crypto, rows: Rows, project: Id, v: Row, i: nat)
    requires v.parent.Some? && v.parent.value in rows
    ensures LinkAt(c, rows, project, v, i + 1) == LinkAt(c, rows, project, rows[v.parent.value], i)
  {
  }

  // What the walk is meant to decide: a good lineage of at most 99 links.
  ghost predicate Accepted(c: Crypto, rows: Rows, project: Id, v: Row) {
    exists n: nat | n <= 99 :: Lineage(c, rows, project, v, n)
  }

  lemma AcceptedIffShort(c: Crypto, rows: Rows, project: Id, v: Row, n: nat)
    requires Lineage(c, rows, project, v, n)
    ensures Accepted(c, rows, project, v) <==> n <= 99
  {
    if Accepted(c, rows, project, v) {
      var m: nat :| m <= 99 && Lineage(c, rows, project, v, m);
      LineageUnique(c, rows, project, v, m, n);
    }
  }

  // The row i steps up from v.
  ghost function Up(rows: Rows, v: Row, i: nat): Option<Row>
    decreases i
  {
    if i == 0 then Some(v)
    else if v.parent == None || v.parent.value !in rows then None
    else Up(rows, rows[v.parent.value], i - 1)
  }

  lemma {:induction false} LineageUp(c: Crypto, rows: Rows, project: Id, v: Row, i: nat, n: nat)
    requires Up(rows, v, i).Some? && Lineage(c, rows, project, v, n)
    ensures n >= i && Lineage(c, rows, project, Up(rows, v, i).value, n - i)
    decreases i
  {
    if i != 0 {
      LineageUp(c, rows, project, rows[v.parent.value], i - 1, n - 1);
    }
  }

  lemma {:induction false} UpNext(rows: Rows, v: Row, i: nat)
    requires Up(rows, v, i).Some?
    ensures var u := Up(rows, v, i).value;
            Up(rows, v, i + 1) == if u.parent == None || u.parent.value !in rows then None
                                  else Some(rows[u.parent.value])
    decreases i
  {
    if i != 0 {
      UpNext(rows, rows[v.parent.value], i - 1);
    }
  }

  // The sealed manifests from v to its root.
  ghost function Seals(c: Crypto, rows: Rows, project: Id, v: Row, n: nat): seq<Sealed>
    requires Lineage(c, rows, project, v, n)
    decreases n
  {
    if n == 0 then [v.sealed] else [v.sealed] + Seals(c, rows, project, rows[v.parent.value], n - 1)
  }

  // Two databases that both accept the same sealed version hold the same ancestors, up to the root,
  // unless two of their own manifests exhibit a collision of the hash.
  lemma {:induction false} SealFixesAncestors(c: Crypto, rows: Rows, p: Id, v: Row, m: nat, rows': Rows,
                                              p': Id, v': Row, n: nat)
    requires v.sealed == v'.sealed
    requires Lineage(c, rows, p, v, m) && Lineage(c, rows', p', v', n)
    ensures (m == n && Seals(c, rows, p, v, m) == Seals(c, rows', p', v', n))
            || Collide(c, Seals(c, rows, p, v, m), Seals(c, rows', p', v', n))
    decreases m
  {
    if m != 0 && n != 0 {
      var u, u' := rows[v.parent.value], rows'[v'.parent.value];
      var s, s' := Seals(c, rows, p, u, m - 1), Seals(c, rows', p', u', n - 1);
      assert s[0] == u.sealed && s'[0] == u'.sealed;
      if u.sealed == u'.sealed {
        SealFixesAncestors(c, rows, p, u, m - 1, rows', p', u', n - 1);
        if Collide(c, s, s') {
          CollideBehind(c, s, s', v.sealed, v'.sealed);
        }
      } else {
        assert Collide(c, s, s');
        CollideBehind(c, s, s', v.sealed, v'.sealed);
      }
    }
  }

  lemma CollideBehind(c: Crypto, s: seq<Sealed>, t: seq<Sealed>, x: Sealed, y: Sealed)
    requires Collide(c, s, t)
    ensures Collide(c, [x] + s, [y] + t)
  {
    var i, j :| 0 <= i < |s| && 0 <= j < |t| && c.commit(s[i]) == c.commit(t[j]) && s[i] != t[j];
    assert ([x] + s)[i + 1] == s[i] && ([y] + t)[j + 1] == t[j];
  }

  // A revision and its root, under a hash that tells all their manifests apart.
  lemma HistoryWithoutCollision() returns (c: Crypto, rows: Rows, v: Row)
    ensures SignsSoundly(c) && Lineage(c, rows, "p", v, 1)
    ensures !Collide(c, Seals(c, rows, "p", v, 1), Seals(c, rows, "p", v, 1))
  {
    c := Crypto((s: Sealed) => s.manifest.version, (i: Identity) => "", (m: Manifest, r: nat) => Proof(""),
                (s: Sealed) => true);
    var m := Manifest("a", "p", "x", "x", None, None, "import", Origin("upload"), "f", "");
    var root := Row("p", None, "x", "x", "import", Origin("upload"), "f", Sealed(m, Proof("")));
    var n := Manifest("b", "p", "x", "x", Some("a"), Some("a"), "metadata", Metadata(""), "g", "");
    v := Row("p", Some("a"), "x", "x", "metadata", Metadata(""), "g", Sealed(n, Proof("")));
    rows := map["a" := root];
    assert Lineage(c, rows, "p", root, 0);
    assert Seals(c, rows, "p", v, 1) == [v.sealed, root.sealed];
  }

  // ----- histories that the service has built

  // The row says what its signed manifest says.
  predicate SameIdentity(id: Id, v: Row) {
    var m := v.sealed.manifest;
    && m.version == id && m.project == v.project && m.source == v.source && m.video == v.output
    && m.parent == v.parent && m.operation == v.operation && m.options == v.options
  }

  // Two rows that say what one manifest says have the same fields.
  lemma SameManifestSameRow(id: Id, v: Row, id': Id, v': Row)
    requires SameIdentity(id, v) && SameIdentity(id', v') && v.sealed.manifest == v'.sealed.manifest
    ensures id == id' && v.project == v'.project && v.parent == v'.parent && v.source == v'.source
    ensures v.output == v'.output && v.operation == v'.operation && v.options == v'.options
  {
  }

  ghost predicate MatchesManifest(id: Id, v: Row) {
    SameIdentity(id, v) && v.sealed.manifest.fingerprint == v.fingerprint
  }

  // Every row is signed and linked; depth counts its ancestors.
  ghost predicate RowBuilt(c: Crypto, rows: Rows, depth: map<Id, nat>, id: Id)
    requires id in rows && depth.Keys == rows.Keys
  {
    var v := rows[id];
    && MatchesManifest(id, v) && c.accepts(v.sealed)
    && (v.parent == None ==> depth[id] == 0 && v.sealed.manifest.parentSeal == None)
    && (v.parent.Some? ==> v.parent.value in rows && depth[id] == depth[v.parent.value] + 1
                           && Links(c, v.project, v, rows[v.parent.value]))
  }

  ghost predicate OnePerFingerprint(rows: Rows) {
    forall i, j | i in rows && j in rows && rows[i].project == rows[j].project
                  && rows[i].fingerprint == rows[j].fingerprint :: i == j
  }

  ghost predicate Built(c: Crypto, rows: Rows, depth: map<Id, nat>) {
    && depth.Keys == rows.Keys
    && (forall id | id in rows :: RowBuilt(c, rows, depth, id))
    && OnePerFingerprint(rows)
  }

  // In a built history every version has a good lineage, of the length of its ancestry.
  lemma {:induction false} BuiltLineage(c: Crypto, rows: Rows, depth: map<Id, nat>, id: Id)
    requires Built(c, rows, depth) && id in rows
    ensures Lineage(c, rows, rows[id].project, rows[id], depth[id])
    decreases depth[id]
  {
    assert RowBuilt(c, rows, depth, id);
    if rows[id].parent.Some? {
      BuiltLineage(c, rows, depth, rows[id].parent.value);
    }
  }

  predicate Has(rows: Rows, id: Id, project: Id, fingerprint: Digest) {
    id in rows && rows[id].project == project && rows[id].fingerprint == fingerprint
  }

  ghost predicate Known(rows: Rows, project: Id, fp: Digest) {
    exists k :: Has(rows, k, project, fp)
  }

  // Rows are only ever added.
  ghost predicate Extends(rows: Rows, rows': Rows) {
    forall k | k in rows :: k in rows' && rows'[k] == rows[k]
  }

  // One signed row with a new fingerprint has been added.
  ghost predicate Adds(c: Crypto, rows: Rows, rows': Rows, v: Id) {
    && v !in rows && v in rows' && rows' == rows[v := rows'[v]]
    && !Known(rows, rows'[v].project, rows'[v].fingerprint)
    && MatchesManifest(v, rows'[v]) && c.accepts(rows'[v].sealed)
  }

  // An import returns the version that has its fingerprint, or adds one.
  ghost predicate Registers(c: Crypto, rows: Rows, rows': Rows, v: Id, i: Identity)
    requires i.Imported?
  {
    var fp := c.fingerprint(i);
    if Known(rows, i.project, fp) then rows' == rows && Has(rows, v, i.project, fp)
    else Adds(c, rows, rows', v) && rows'[v] == ImportRow(c, i, rows'[v].sealed)
  }

  function ImportRow(c: Crypto, i: Identity, sealed: Sealed): Row
    requires i.Imported?
  {
    Row(i.project, None, i.sha, i.sha, if i.generator.Some? then "generated" else "import", Origin(i.origin),
        c.fingerprint(i), sealed)
  }

  // An import has no parent and is made from itself; what a backend made is told from what was uploaded.
  lemma ImportRowMeans(c: Crypto, i: Identity, sealed: Sealed)
    requires i.Imported?
    ensures var v := ImportRow(c, i, sealed);
            && v.parent == None && v.project == i.project && v.source == v.output == i.sha
            && (v.operation == "generated" <==> i.generator.Some?) && (v.operation == "import" <==> i.generator == None)
            && v.options == Origin(i.origin) && v.fingerprint == c.fingerprint(i) && v.sealed == sealed
  {
  }

  lemma AddsKeepsOne(c: Crypto, rows: Rows, rows': Rows, v: Id)
    requires OnePerFingerprint(rows) && Adds(c, rows, rows', v)
    ensures OnePerFingerprint(rows') && Extends(rows, rows')
  {
    forall i, j | i in rows' && j in rows' && rows'[i].project == rows'[j].project
                  && rows'[i].fingerprint == rows'[j].fingerprint
      ensures i == j
    {
      assert !Has(rows, i, rows'[v].project, rows'[v].fingerprint);
      assert !Has(rows, j, rows'[v].project, rows'[v].fingerprint);
    }
  }

  // A fingerprint keeps its version for good: later rows never take it over.
  lemma FingerprintIsStable(rows: Rows, rows': Rows, project: Id, fp: Digest, id: Id, id': Id)
    requires OnePerFingerprint(rows') && Has(rows, id, project, fp) && Has(rows', id', project, fp)
    requires Extends(rows, rows')
    ensures id == id'
  {
  }

  // ----- the operations

  function NewManifest(c: Crypto, rows: Rows, id: Id, project: Id, parent: Option<Id>, source: Digest,
                       output: Digest, operation: string, options: Revision, fp: Digest, rest: string): Manifest
    requires parent.Some? ==> parent.value in rows
  {
    Manifest(id, project, source, output, parent,
             if parent == None then None else Some(c.commit(rows[parent.value].sealed)),
             operation, options, fp, rest)
  }

  datatype Outcome =
    | Version(id: Id, hit: bool)
    | BadOperation
    | BadOptions
    | VersionNotFound
    | OtherProject
    | AssetNotFound
    | TrimTooLong
    | ProjectNotFound
    | RenderFailed
    | NotStored(why: Ingestion)
    | IdTaken                 // the row's primary key is already used

  // A request as it arrives: an operation name and untyped options.
  // `number` is what the text reads as, if it is a numeral.
  datatype Field = Text(s: string, number: Option<Float>) | Number(f: Float) | Other
  type Fields = map<string, Field>

  // The whitelisted fields that an operation keeps, or the reason it is refused.
  function Normalised(operation: string, f: Fields): (r: Option<Revision>)
    ensures r.Some? ==> OperationName(r.value) == operation
  {
    if operation == "caption" then
      if "text" in f && f["text"].Text? && 1 <= |f["text"].s| <= 400 then Some(Caption(f["text"].s)) else None
    else if operation == "metadata" then
      if "note" !in f then Some(Metadata(""))
      else if f["note"].Text? && |f["note"].s| <= 1000 then Some(Metadata(f["note"].s)) else None
    else if operation == "trim" then
      match (Numeric(f, "start_seconds"), Numeric(f, "end_seconds"))
      case (Some(Finite(x)), Some(Finite(y))) => if 0.0 <= x < y then Some(Trim(x, Finite(y))) else None
      case (Some(Finite(x)), Some(Infinite)) => if 0.0 <= x then Some(Trim(x, Infinite)) else None
      case _ => None
    else None
  }

  function Numeric(f: Fields, key: string): Option<Float> {
    if key !in f then None
    else match f[key]
      case Text(_, number) => number
      case Number(x) => Some(x)
      case Other => None
  }

  predicate Exceeds(end: Float, duration: real) {
    match end
    case Finite(r) => r > duration
    case Infinite => true
    case NoOrder => false
  }

  function OperationName(r: Revision): string {
    match r
    case Origin(_) => "import"
    case Metadata(_) => "metadata"
    case Caption(_) => "caption"
    case Trim(_, _) => "trim"
  }

  predicate KnownOperation(operation: string) {
    operation == "metadata" || operation == "caption" || operation == "trim"
  }

  // Why a revision is refused before anything is looked up or rendered, in the order of the checks.
  function Refusal(rows: Rows, assets: Assets, project: Id, parent: Id, operation: string,
                   fields: Fields)
    : (r: Option<Outcome>)
    ensures r == None ==> KnownOperation(operation) && Normalised(operation, fields).Some?
                          && parent in rows && rows[parent].project == project
  {
    if !KnownOperation(operation) then Some(BadOperation)
    else
      var options := Normalised(operation, fields);
      if options == None then Some(BadOptions)
      else if parent !in rows then Some(VersionNotFound)
      else if rows[parent].project != project then Some(OtherProject)
      else if (project, rows[parent].output) !in assets then Some(AssetNotFound)
      else if options.value.Trim? && Exceeds(options.value.end, assets[(project, rows[parent].output)] + 0.04)
      then Some(TrimTooLong)
      else None
  }

  // Exactly which requests pass, and what an early refusal says.
  lemma RefusalMeans(rows: Rows, assets: Assets, project: Id, parent: Id, operation: string, fields: Fields)
    ensures var r, options := Refusal(rows, assets, project, parent, operation, fields), Normalised(operation, fields);
            && (r == None <==>
                  && options.Some? && parent in rows && rows[parent].project == project
                  && (project, rows[parent].output) in assets
                  && (options.value.Trim? ==>
                        && options.value.end.Finite?
                        && options.value.end.r <= assets[(project, rows[parent].output)] + 0.04))
            && (r == Some(BadOperation) <==> operation !in {"metadata", "caption", "trim"})
            && (r == Some(BadOptions) <==> operation in {"metadata", "caption", "trim"} && options == None)
            && (r == Some(VersionNotFound) <==> options.Some? && parent !in rows)
            && (r == Some(OtherProject) <==> options.Some? && parent in rows && rows[parent].project != project)
  {
    if Normalised(operation, fields).Some? {
      AcceptedOptions(operation, fields, Normalised(operation, fields).value);
    }
  }

  // Everything that tells one revision from another.
  function RevisionPrint(c: Crypto, rows: Rows, project: Id, parent: Id, operation: string, fields: Fields): Digest
    requires parent in rows && Normalised(operation, fields).Some?
  {
    c.fingerprint(Revised(project, parent, rows[parent].output, Normalised(operation, fields).value))
  }

  // ----- files

  type Assets = map<(Id, Digest), real>    // (project, sha) -> duration in seconds

  // A file at hand; the probe may find no playable video in it, or one that is too long.
  datatype File = File(sha: Digest, size: nat, duration: Option<real>)

  datatype Ingestion = Stored | NoProject | TooLarge | Unplayable | Corrupted

  function Ingested(assets: Assets, project: Id, file: File): Assets
    requires file.duration.Some?
  {
    if (project, file.sha) in assets then assets else assets[(project, file.sha) := file.duration.value]
  }

  // `intact` says that a file stored under this hash before still has it.
  function IngestionOf(projects: set<Id>, files: set<(Id, Digest)>, maxUpload: nat, project: Id, file: File,
                       intact: bool)
    : (r: Ingestion)
    ensures r == Stored ==> project in projects && file.duration.Some?
  {
    if project !in projects then NoProject
    else if file.size > maxUpload then TooLarge
    else if file.duration == None then Unplayable
    else if (project, file.sha) in files && !intact then Corrupted
    else Stored
  }

  lemma IngestionMeans(projects: set<Id>, files: set<(Id, Digest)>, maxUpload: nat, project: Id, file: File,
                       intact: bool)
    ensures var r := IngestionOf(projects, files, maxUpload, project, file, intact);
            && (r == Stored <==> project in projects && file.size <= maxUpload && file.duration.Some?
                                 && ((project, file.sha) in files ==> intact))
            && (r == NoProject <==> project !in projects)
            && (r == TooLarge <==> project in projects && file.size > maxUpload)
  {
  }

  class History {
    const crypto: Crypto
    const maxUpload: nat
    var projects: set<Id>
    var rows: Rows
    var assets: Assets
    var files: set<(Id, Digest)>
    ghost var depth: map<Id, nat>

    ghost predicate Valid()
      reads this
    {
      SignsSoundly(crypto) && Built(crypto, rows, depth)
    }

    constructor (crypto: Crypto, maxUpload: nat)
      requires SignsSoundly(crypto)
      ensures Valid() && projects == {} && rows == map[] && assets == map[] && files == {}
      ensures this.crypto == crypto && this.maxUpload == maxUpload
    {
      this.crypto, this.maxUpload := crypto, maxUpload;
      projects, rows, assets, files, depth := {}, map[], map[], {}, map[];
    }

    method CreateProject(id: Id)
      requires Valid()
      modifies this`projects
      ensures Valid() && projects == old(projects) + {id}
    {
      projects := projects + {id};
    }

    // Inserts one signed row; the parent, if any, is committed to by hash.
    method WriteVersion(id: Id, nonce: nat, rest: string, project: Id, parent: Option<Id>, source: Digest,
                        output: Digest, operation: string, options: Revision, fp: Digest)
      returns (r: Outcome)
      requires Valid()
      requires parent.Some? ==> parent.value in rows && rows[parent.value].project == project
                                && rows[parent.value].output == source
      requires forall k :: !Has(rows, k, project, fp)
      modifies this`rows, this`depth
      ensures Valid() && Extends(old(rows), rows)
      ensures if project !in projects then r == ProjectNotFound && rows == old(rows)
              else if id in old(rows) then r == IdTaken && rows == old(rows)
              else
                && r == Version(id, false) && Adds(crypto, old(rows), rows, id)
                && rows[id] == Row(project, parent, source, output, operation, options, fp, rows[id].sealed)
                && rows[id].sealed.manifest
                     == NewManifest(crypto, old(rows), id, project, parent, source, output, operation, options, fp, rest)
    {
      if project !in projects {
        return ProjectNotFound;
      }
      if id in rows {
        return IdTaken;
      }
      var manifest := NewManifest(crypto, rows, id, project, parent, source, output, operation, options, fp, rest);
      var row := Row(project, parent, source, output, operation, options, fp,
                     Sealed(manifest, crypto.sign(manifest, nonce)));
      ghost var rows0, depth0 := rows, depth;
      rows := rows[id := row];
      depth := depth[id := if parent == None then 0 else depth[parent.value] + 1];
      InsertKeepsBuilt(crypto, rows0, depth0, id, row, depth[id]);
      r := Version(id, false);
    }

    method RegisterImport(id: Id, nonce: nat, rest: string, project: Id, sha: Digest, origin: string,
                          generator: Option<Generator>)
      returns (r: Outcome)
      requires Valid()
      modifies this`rows, this`depth
      ensures Valid() && Extends(old(rows), rows)
      ensures r.Version? ==> Registers(crypto, old(rows), rows, r.id, Imported(project, sha, origin, generator))
      ensures !r.Version? ==> rows == old(rows)
      ensures if (project, sha) !in assets then r == AssetNotFound
              else if Known(old(rows), project, crypto.fingerprint(Imported(project, sha, origin, generator)))
              then r.Version? && r.hit
              else if project !in projects then r == ProjectNotFound
              else if id in old(rows) then r == IdTaken
              else r == Version(id, false)
    {
      if (project, sha) !in assets {
        return AssetNotFound;
      }
      var fp := crypto.fingerprint(Imported(project, sha, origin, generator));
      var found := Find(project, fp);
      if found.Some? {
        return Version(found.value, true);
      }
      r := WriteVersion(id, nonce, rest, project, None, sha, sha,
                        if generator.Some? then "generated" else "import", Origin(origin), fp);
    }

    method Find(project: Id, fp: Digest) returns (r: Option<Id>)
      ensures r.Some? ==> Has(rows, r.value, project, fp)
      ensures r == None ==> forall k :: !Has(rows, k, project, fp)
    {
      if exists k | k in rows :: Has(rows, k, project, fp) {
        var k :| k in rows && Has(rows, k, project, fp);
        return Some(k);
      }
      return None;
    }

    // Stores a file under its hash; a file that is there already stays as it is.
    method Ingest(project: Id, file: File, intact: bool) returns (r: Ingestion)
      requires Valid()
      modifies this`assets, this`files
      ensures Valid() && r == IngestionOf(projects, old(files), maxUpload, project, file, intact)
      ensures assets == if r == Stored then Ingested(old(assets), project, file) else old(assets)
      ensures files == if r == Stored then old(files) + {(project, file.sha)} else old(files)
    {
      if project !in projects {
        return NoProject;
      }
      if file.size > maxUpload {
        return TooLarge;
      }
      if file.duration == None {
        return Unplayable;
      }
      if (project, file.sha) !in files {
        files := files + {(project, file.sha)};
      } else if !intact {
        return Corrupted;
      }
      if (project, file.sha) !in assets {
        assets := assets[(project, file.sha) := file.duration.value];
      }
      return Stored;
    }

    // `rendered` is what the renderer produces, if it does not fail.
    method CreateRevision(id: Id, nonce: nat, rest: string, project: Id, parent: Id, operation: string,
                          fields: Fields, rendered: Option<File>, intact: bool)
      returns (r: Outcome)
      requires Valid()
      modifies this`rows, this`depth, this`assets, this`files
      ensures Valid() && Extends(old(rows), rows)
      ensures r.Version? ==>
                && Refusal(old(rows), old(assets), project, parent, operation, fields) == None
                && Has(rows, r.id, project, RevisionPrint(crypto, old(rows), project, parent, operation, fields))
      ensures r.Version? && !r.hit ==>
                && Adds(crypto, old(rows), rows, id)
                && (operation == "metadata" || rendered.Some?)
                && var source := old(rows)[parent].output;
                   rows[id] == Row(project, Some(parent), source,
                                   if operation == "metadata" then source else rendered.value.sha,
                                   operation, Normalised(operation, fields).value,
                                   RevisionPrint(crypto, old(rows), project, parent, operation, fields),
                                   rows[id].sealed)
      ensures !r.Version? || r.hit ==> rows == old(rows)
      ensures var refusal := Refusal(old(rows), old(assets), project, parent, operation, fields);
              if refusal.Some? then r == refusal.value
              else if Known(old(rows), project, RevisionPrint(crypto, old(rows), project, parent, operation, fields))
              then r.Version? && r.hit
              else if operation != "metadata" && rendered == None then r == RenderFailed
              else if operation != "metadata"
                      && IngestionOf(projects, old(files), maxUpload, project, rendered.value, intact) != Stored
              then r == NotStored(IngestionOf(projects, old(files), maxUpload, project, rendered.value, intact))
              else if project !in projects then r == ProjectNotFound
              else if id in old(rows) then r == IdTaken
              else r == Version(id, false)
      // A rendered file stays stored even when the row is then refused.
      ensures if operation != "metadata" && rendered.Some? && rendered.value.duration.Some?
                 && (r == Version(id, false) || r == IdTaken)
              then assets == Ingested(old(assets), project, rendered.value)
                   && files == old(files) + {(project, rendered.value.sha)}
              else assets == old(assets) && files == old(files)
    {
      var refusal := Refusal(rows, assets, project, parent, operation, fields);
      if refusal.Some? {
        return refusal.value;
      }
      var fp := RevisionPrint(crypto, rows, project, parent, operation, fields);
      var found := Find(project, fp);
      if found.Some? {
        return Version(found.value, true);
      }
      r := AddRevision(id, nonce, rest, project, parent, operation, Normalised(operation, fields).value, fp, rendered,
                       intact);
    }

    // A revision that is not in the history yet: its file is stored, then its row is written.
    method AddRevision(id: Id, nonce: nat, rest: string, project: Id, parent: Id, operation: string,
                       options: Revision, fp: Digest, rendered: Option<File>, intact: bool)
      returns (r: Outcome)
      requires Valid() && parent in rows && rows[parent].project == project && !Known(rows, project, fp)
      modifies this`rows, this`depth, this`assets, this`files
      ensures Valid() && Extends(old(rows), rows)
      ensures if r == Version(id, false)
              then
                && Adds(crypto, old(rows), rows, id) && (operation == "metadata" || rendered.Some?)
                && var source := old(rows)[parent].output;
                   rows[id] == Row(project, Some(parent), source,
                                   if operation == "metadata" then source else rendered.value.sha,
                                   operation, options, fp, rows[id].sealed)
              else !r.Version? && rows == old(rows)
      ensures if operation != "metadata" && rendered == None then r == RenderFailed
              else if operation != "metadata"
                      && IngestionOf(projects, old(files), maxUpload, project, rendered.value, intact) != Stored
              then r == NotStored(IngestionOf(projects, old(files), maxUpload, project, rendered.value, intact))
              else if project !in projects then r == ProjectNotFound
              else if id in old(rows) then r == IdTaken
              else r == Version(id, false)
      ensures if operation != "metadata" && rendered.Some? && rendered.value.duration.Some?
                 && (r == Version(id, false) || r == IdTaken)
              then assets == Ingested(old(assets), project, rendered.value)
                   && files == old(files) + {(project, rendered.value.sha)}
              else assets == old(assets) && files == old(files)
    {
      var source := rows[parent].output;
      var output, failure := StoreRendered(project, operation, source, rendered, intact);
      if failure.Some? {
        return failure.value;
      }
      r := WriteVersion(id, nonce, rest, project, Some(parent), source, output, operation, options, fp);
    }

    // The file of a revision: the parent's own, or the rendered one, once it is stored.
    method StoreRendered(project: Id, operation: string, source: Digest, rendered: Option<File>, intact: bool)
      returns (output: Digest, failure: Option<Outcome>)
      requires Valid()
      modifies this`assets, this`files
      ensures Valid()
      ensures operation == "metadata" ==> output == source && failure == None
      ensures operation != "metadata" && rendered == None ==> failure == Some(RenderFailed)
      ensures operation != "metadata" && rendered.Some? ==>
                && output == rendered.value.sha
                && var stored := IngestionOf(projects, old(files), maxUpload, project, rendered.value, intact);
                   failure == if stored == Stored then None else Some(NotStored(stored))
      ensures if operation != "metadata" && failure == None
              then rendered.value.duration.Some? && assets == Ingested(old(assets), project, rendered.value)
                   && files == old(files) + {(project, output)}
              else assets == old(assets) && files == old(files)
    {
      if operation == "metadata" {
        return source, None;
      }
      if rendered == None {
        return source, Some(RenderFailed);
      }
      output := rendered.value.sha;
      var stored := Ingest(project, rendered.value, intact);
      failure := if stored == Stored then None else Some(NotStored(stored));
    }

    // The walk over at most 100 versions; `intact` says that the stored file still has its hash.
    method Verify(id: Id, intact: bool)
      returns (found: bool, signature: bool, identity: bool, lineage: bool, verified: bool)
      ensures found <==> id in rows
      ensures found ==> signature == crypto.accepts(rows[id].sealed)
      ensures found ==> identity == SameIdentity(id, rows[id])
      ensures found ==> (lineage <==> Accepted(crypto, rows, rows[id].project, rows[id]))
      ensures found ==> verified == (signature && intact && identity && lineage)
      ensures found && Valid() ==> (verified <==> intact && depth[id] <= 99)
    {
      if id !in rows {
        return false, false, false, false, false;
      }
      var v := rows[id];
      var m := v.sealed.manifest;
      signature := crypto.accepts(v.sealed);
      identity := m.video == v.output && m.source == v.source && m.project == v.project && m.version == id
                  && m.parent == v.parent && m.operation == v.operation && m.options == v.options;
      lineage := CheckLineage(id);
      verified := signature && intact && identity && lineage;
      if Valid() {
        BuiltLineage(crypto, rows, depth, id);
        assert RowBuilt(crypto, rows, depth, id);
        assert Lineage(crypto, rows, v.project, v, depth[id]);
        AcceptedIffShort(crypto, rows, v.project, v, depth[id]);
      }
      return true, signature, identity, lineage, verified;
    }

    method CheckLineage(id: Id) returns (ok: bool)
      requires id in rows
      ensures ok <==> Accepted(crypto, rows, rows[id].project, rows[id])
    {
      var v := rows[id];
      var seen := {id};
      var child := v;
      ghost var back: map<Id, nat> := map[id := 0];
      var i := 0;
      while i < 100
        invariant 0 <= i <= 100 && Up(rows, v, i) == Some(child)
        invariant seen == back.Keys
        invariant forall k | k in back :: k in rows && back[k] <= i && Up(rows, v, back[k]) == Some(rows[k])
        invariant forall n: nat :: Lineage(crypto, rows, v.project, child, n) ==> Lineage(crypto, rows, v.project, v, n + i)
      {
        UpNext(rows, v, i);
        if child.parent == None {
          if child.sealed.manifest.parentSeal == None {
            assert Lineage(crypto, rows, v.project, child, 0);
            AcceptedIffShort(crypto, rows, v.project, v, 0 + i);
          }
          NoLongerThan(crypto, rows, v.project, v, i, child);
          return child.sealed.manifest.parentSeal == None;
        }
        var pid := child.parent.value;
        if pid in seen || pid !in rows || !Links(crypto, v.project, child, rows[pid]) {
          NoLineage(crypto, rows, v.project, v, i, child, if pid in back then back[pid] else 0);
          return false;
        }
        forall n: nat | Lineage(crypto, rows, v.project, rows[pid], n)
          ensures Lineage(crypto, rows, v.project, v, n + (i + 1))
        {
          assert Lineage(crypto, rows, v.project, child, n + 1);
          assert n + 1 + i == n + (i + 1);
        }
        child := rows[pid];
        seen := seen + {pid};
        back := back[pid := i + 1];
        i := i + 1;
      }
      TooLong(crypto, rows, v.project, v, child);
      return false;
    }
  }

  // A row whose fingerprint is new, signed and linked to its parent, keeps the history built.
  lemma InsertKeepsBuilt(c: Crypto, rows: Rows, depth: map<Id, nat>, id: Id, row: Row, d: nat)
    requires Built(c, rows, depth) && id !in rows
    requires forall k :: !Has(rows, k, row.project, row.fingerprint)
    requires MatchesManifest(id, row) && c.accepts(row.sealed)
    requires row.parent == None ==> d == 0 && row.sealed.manifest.parentSeal == None
    requires row.parent.Some? ==>
               && row.parent.value in rows && d == depth[row.parent.value] + 1
               && rows[row.parent.value].project == row.project && rows[row.parent.value].output == row.source
               && row.sealed.manifest.parentSeal == Some(c.commit(rows[row.parent.value].sealed))
    ensures Built(c, rows[id := row], depth[id := d])
  {
    var rows', depth' := rows[id := row], depth[id := d];
    forall k | k in rows'
      ensures RowBuilt(c, rows', depth', k)
    {
      if k != id {
        assert RowBuilt(c, rows, depth, k);
      } else if row.parent.Some? {
        assert RowBuilt(c, rows, depth, row.parent.value);
      }
    }
    forall i, j | i in rows' && j in rows' && rows'[i].project == rows'[j].project
                  && rows'[i].fingerprint == rows'[j].fingerprint
      ensures i == j
    {
      assert !Has(rows, i, row.project, row.fingerprint) && !Has(rows, j, row.project, row.fingerprint);
    }
  }

  lemma NoLongerThan(c: Crypto, rows: Rows, project: Id, v: Row, i: nat, child: Row)
    requires Up(rows, v, i) == Some(child) && child.parent == None
    ensures forall n: nat :: Lineage(c, rows, project, v, n) ==> n == i && child.sealed.manifest.parentSeal == None
  {
    forall n: nat | Lineage(c, rows, project, v, n)
      ensures n == i && child.sealed.manifest.parentSeal == None
    {
      LineageUp(c, rows, project, v, i, n);
    }
  }

  lemma NoLineage(c: Crypto, rows: Rows, project: Id, v: Row, i: nat, child: Row, j: nat)
    requires Up(rows, v, i) == Some(child) && child.parent.Some?
    requires child.parent.value !in rows || !Links(c, project, child, rows[child.parent.value])
             || (j <= i && Up(rows, v, j) == Some(rows[child.parent.value]))
    ensures forall n: nat :: !Lineage(c, rows, project, v, n)
  {
    forall n: nat
      ensures !Lineage(c, rows, project, v, n)
    {
      if Lineage(c, rows, project, v, n) {
        LineageUp(c, rows, project, v, i, n);
        LineageUp(c, rows, project, v, j, n);
        LineageUnique(c, rows, project, rows[child.parent.value], n - i - 1, n - j);
      }
    }
  }

  lemma TooLong(c: Crypto, rows: Rows, project: Id, v: Row, child: Row)
    requires Up(rows, v, 100) == Some(child)
    ensures forall n: nat | n <= 99 :: !Lineage(c, rows, project, v, n)
  {
    forall n: nat | n <= 99
      ensures !Lineage(c, rows, project, v, n)
    {
      if Lineage(c, rows, project, v, n) {
        LineageUp(c, rows, project, v, 100, n);
      }
    }
  }

  // ----- the same request once more

  // What clients ask for: an upload with its import, or a revision.
  datatype Request =
    | Upload(id: Id, nonce: nat, rest: string, project: Id, file: File, intact: bool)
    | Revise(id: Id, nonce: nat, rest: string, project: Id, parent: Id, operation: string, fields: Fields,
             rendered: Option<File>, intact: bool)

  ghost predicate Grown(assets: Assets, assets': Assets) {
    forall k | k in assets :: k in assets' && assets'[k] == assets[k]
  }

  // The request is not refused outright, and this is its fingerprint.
  ghost predicate Prints(h: History, q: Request, rows: Rows, assets: Assets, fp: Digest) {
    && q.Revise? && Refusal(rows, assets, q.project, q.parent, q.operation, q.fields) == None
    && RevisionPrint(h.crypto, rows, q.project, q.parent, q.operation, q.fields) == fp
  }

  method ReviseFor(h: History, q: Request) returns (r: Outcome, ghost fp: Digest)
    requires h.Valid() && q.Revise?
    modifies h`rows, h`depth, h`assets, h`files
    ensures h.Valid() && Extends(old(h.rows), h.rows) && Grown(old(h.assets), h.assets)
    ensures h.rows == old(h.rows) || Adds(h.crypto, old(h.rows), h.rows, q.id)
    ensures r.Version? ==> Prints(h, q, old(h.rows), old(h.assets), fp) && Has(h.rows, r.id, q.project, fp)
    ensures forall f | Prints(h, q, old(h.rows), old(h.assets), f) && Known(old(h.rows), q.project, f) ::
              r.Version? && r.hit
  {
    r := h.CreateRevision(q.id, q.nonce, q.rest, q.project, q.parent, q.operation, q.fields, q.rendered, q.intact);
    fp := if r.Version? then RevisionPrint(h.crypto, old(h.rows), q.project, q.parent, q.operation, q.fields) else "";
  }

  method Serve(h: History, q: Request)
    requires h.Valid()
    modifies h`rows, h`depth, h`assets, h`files
    ensures h.Valid() && Extends(old(h.rows), h.rows) && Grown(old(h.assets), h.assets)
    ensures h.rows == old(h.rows) || Adds(h.crypto, old(h.rows), h.rows, q.id)
  {
    if q.Revise? {
      var r, _ := ReviseFor(h, q);
    } else {
      UploadFor(h, q);
    }
  }

  method UploadFor(h: History, q: Request)
    requires h.Valid() && q.Upload?
    modifies h`rows, h`depth, h`assets, h`files
    ensures h.Valid() && Extends(old(h.rows), h.rows) && Grown(old(h.assets), h.assets)
    ensures h.rows == old(h.rows) || Adds(h.crypto, old(h.rows), h.rows, q.id)
  {
    var stored := h.Ingest(q.project, q.file, q.intact);
    if stored == Stored {
      var r := h.RegisterImport(q.id, q.nonce, q.rest, q.project, q.file.sha, "upload", None);
    }
  }

  method ServeAll(h: History, requests: seq<Request>)
    requires h.Valid()
    modifies h`rows, h`depth, h`assets, h`files
    ensures h.Valid() && Extends(old(h.rows), h.rows) && Grown(old(h.assets), h.assets)
  {
    var i := 0;
    while i < |requests|
      invariant 0 <= i <= |requests| && h.Valid()
      invariant Extends(old(h.rows), h.rows) && Grown(old(h.assets), h.assets)
    {
      Serve(h, requests[i]);
      i := i + 1;
    }
  }

  lemma StillPrints(h: History, q: Request, q': Request, rows: Rows, assets: Assets, rows': Rows, assets': Assets,
                    fp: Digest)
    requires q.Revise? && q'.Revise? && SameRevision(q, q') && Prints(h, q, rows, assets, fp)
    requires Extends(rows, rows') && Grown(assets, assets')
    ensures Prints(h, q', rows', assets', fp)
  {
  }

  predicate SameRevision(q: Request, q': Request)
    requires q.Revise? && q'.Revise?
  {
    && q'.project == q.project && q'.parent == q.parent && q'.operation == q.operation
    && Normalised(q.operation, q'.fields) == Normalised(q.operation, q.fields)
  }

  // A revision asked for once more, whatever else was asked for in between and whatever the renderer
  // would do now, is the version that it was.
  method ReviseTwice(h: History, q: Request, others: seq<Request>, q': Request)
    returns (first: Outcome, second: Outcome)
    requires h.Valid() && q.Revise? && q'.Revise? && SameRevision(q, q')
    modifies h`rows, h`depth, h`assets, h`files
    ensures h.Valid() && (first.Version? ==> second == Version(first.id, true))
  {
    ghost var rows, assets := h.rows, h.assets;
    ghost var fp, fp';
    first, fp := ReviseFor(h, q);
    ServeAll(h, others);
    ghost var rows', assets' := h.rows, h.assets;
    if first.Version? {
      StillPrints(h, q, q', rows, assets, rows', assets', fp);
      assert Has(rows', first.id, q.project, fp);
    }
    second, fp' := ReviseFor(h, q');
    if first.Version? {
      FingerprintIsStable(rows', h.rows, q.project, fp, first.id, second.id);
    }
  }

  // Two revisions that are one version were asked for the same thing: of the same project and parent, and
  // with the same options, unless the fingerprint takes what they asked for for one.
  method ReviseApart(h: History, q: Request, others: seq<Request>, q': Request)
    returns (first: Outcome, second: Outcome)
    requires h.Valid() && q.Revise? && q'.Revise?
    modifies h`rows, h`depth, h`assets, h`files
    ensures h.Valid()
    ensures first.Version? && second.Version? && first.id == second.id ==>
              && q.parent in h.rows && q'.parent in h.rows && q'.project == q.project
              && var (x, x') := (Normalised(q.operation, q.fields), Normalised(q'.operation, q'.fields));
                 && x.Some? && x'.Some?
                 && ((q'.parent == q.parent && x' == x)
                     || Confused(h.crypto, Revised(q.project, q.parent, h.rows[q.parent].output, x.value),
                                 Revised(q'.project, q'.parent, h.rows[q'.parent].output, x'.value)))
  {
    ghost var fp, fp';
    ghost var rows, assets := h.rows, h.assets;
    first, fp := ReviseFor(h, q);
    ServeAll(h, others);
    ghost var rows', assets' := h.rows, h.assets;
    if first.Version? {
      StillPrints(h, q, q, rows, assets, rows', assets', fp);
      assert Has(rows', first.id, q.project, fp);
    }
    second, fp' := ReviseFor(h, q');
    if first.Version? && second.Version? && first.id == second.id {
      PrintsIs(h, q, rows', assets', h.rows, fp);
      PrintsIs(h, q', rows', assets', h.rows, fp');
    }
  }

  lemma PrintsIs(h: History, q: Request, rows: Rows, assets: Assets, rows': Rows, fp: Digest)
    requires Prints(h, q, rows, assets, fp) && Extends(rows, rows')
    ensures q.parent in rows' && Normalised(q.operation, q.fields).Some?
    ensures fp == h.crypto.fingerprint(Revised(q.project, q.parent, rows'[q.parent].output,
                                               Normalised(q.operation, q.fields).value))
  {
  }

  // What a revision may be asked to do, and what is kept of its options.
  lemma AcceptedOptions(operation: string, f: Fields, r: Revision)
    ensures Normalised(operation, f) == Some(r) <==>
              match r
              case Origin(_) => false
              case Caption(text) =>
                operation == "caption" && 1 <= |text| <= 400 && "text" in f && f["text"].Text? && f["text"].s == text
              case Metadata(note) =>
                operation == "metadata" && |note| <= 1000
                && (if "note" in f then f["note"].Text? && f["note"].s == note else note == "")
              case Trim(start, end) =>
                operation == "trim" && 0.0 <= start && Numeric(f, "start_seconds") == Some(Finite(start))
                && Numeric(f, "end_seconds") == Some(end) && (end == Infinite || (end.Finite? && start < end.r))
  {
  }

  // So is an import.
  method ImportTwice(h: History, q: Request, origin: string, generator: Option<Generator>, others: seq<Request>,
                     q': Request)
    returns (first: Outcome, second: Outcome)
    requires h.Valid() && q.Upload? && q'.Upload? && q'.project == q.project && q'.file.sha == q.file.sha
    modifies h`rows, h`depth, h`assets, h`files
    ensures h.Valid() && (first.Version? ==> second == Version(first.id, true))
  {
    ghost var fp := h.crypto.fingerprint(Imported(q.project, q.file.sha, origin, generator));
    first := h.RegisterImport(q.id, q.nonce, q.rest, q.project, q.file.sha, origin, generator);
    ServeAll(h, others);
    assert first.Version? ==> Has(h.rows, first.id, q.project, fp);
    second := h.RegisterImport(q'.id, q'.nonce, q'.rest, q'.project, q'.file.sha, origin, generator);
    if first.Version? {
      FingerprintIsStable(h.rows, h.rows, q.project, fp, first.id, second.id);
    }
  }
}
