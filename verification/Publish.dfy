/** Publication of a contract bundle into a tree of immutable version
    directories: validate, stage, validate again, rename, point. */
module Publish {
  import opened Text
  import opened BundleHash
  import opened Sorting
  import Trees

  type Path = Trees.Path
  type Files = map<Path, Bytes>

  predicate Under(dir: Path, p: Path) { Trees.Under(dir, p) }

  predicate SameAt(a: Files, b: Files, p: Path) {
    (p in a <==> p in b) && (p in a ==> a[p] == b[p])
  }

  predicate Present(fs: Files, dir: Path) {
    exists q :: q in fs && Under(dir, q)
  }

  // ------------------------------------------------------- referenced paths

  function Parts(rel: string): (r: seq<string>)
    ensures |r| > 0
  {
    if rel == "" then [""]
    else
      var rest := Parts(rel[1..]);
      if rel[0] == '/' then [""] + rest else [[rel[0]] + rest[0]] + rest[1..]
  }

  function Walk(at: Path, parts: seq<string>): Path {
    if parts == [] then at
    else
      var here, part := Walk(at, parts[..|parts| - 1]), parts[|parts| - 1];
      if part == "" || part == "." then here
      else if part != ".." then here + [part]
      else if here == [] then []
      else here[..|here| - 1]
  }

  predicate Absolute(rel: string) { rel != "" && rel[0] == '/' }

  /** `(dir / rel).resolve()`, no links being involved. */
  function Resolve(dir: Path, rel: string): Path {
    Walk(if Absolute(rel) then [] else dir, Parts(rel))
  }

  /** Where the parts lead below their start; None when they climb above it. */
  function Inner(parts: seq<string>): Option<Path> {
    if parts == [] then Some([])
    else
      var here, part := Inner(parts[..|parts| - 1]), parts[|parts| - 1];
      if here.None? || part == "" || part == "." then here
      else if part != ".." then Some(here.value + [part])
      else if here.value == [] then None
      else Some(here.value[..|here.value| - 1])
  }

  /** A relative path that never climbs above the directory it starts from. */
  predicate Stays(rel: string) {
    !Absolute(rel) && Inner(Parts(rel)).Some?
  }

  lemma {:induction false} WalkStays(at: Path, parts: seq<string>)
    ensures Inner(parts).Some? ==> Walk(at, parts) == at + Inner(parts).value
  {
    if parts != [] { WalkStays(at, parts[..|parts| - 1]); }
  }

  lemma {:induction false} WalkClimbs(at: Path, x: string, y: string, parts: seq<string>)
    ensures Inner(parts).None? ==> Walk(at + [x], parts) == Walk(at + [y], parts)
  {
    if parts != [] {
      var init := parts[..|parts| - 1];
      WalkClimbs(at, x, y, init);
      WalkStays(at + [x], init);
      WalkStays(at + [y], init);
      if Inner(init) == Some([]) {
        assert Walk(at + [x], init) == at + [x] && Walk(at + [y], init) == at + [y];
        assert (at + [x])[..|at|] == (at + [y])[..|at|];
      }
    }
  }

  lemma SiblingsApart(at: Path, x: string, y: string, p: Path)
    requires x != y
    ensures !(Under(at + [x], p) && Under(at + [y], p))
  {
    assert Under(at + [x], p) ==> |p| > |at| && p[|at|] == (at + [x])[|at|] == x;
    assert Under(at + [y], p) ==> |p| > |at| && p[|at|] == (at + [y])[|at|] == y;
  }

  /** A path stays inside two sibling directories exactly when it never climbs. */
  lemma StaysIffInsideSiblings(at: Path, x: string, y: string, rel: string)
    requires x != y
    ensures Stays(rel) <==> Under(at + [x], Resolve(at + [x], rel)) && Under(at + [y], Resolve(at + [y], rel))
    ensures Stays(rel) ==> Resolve(at + [x], rel) == at + [x] + Inner(Parts(rel)).value
  {
    var parts := Parts(rel);
    WalkStays(at + [x], parts);
    WalkStays(at + [y], parts);
    WalkClimbs(at, x, y, parts);
    if !Stays(rel) {
      var p := Resolve(at + [x], rel);
      assert p == Resolve(at + [y], rel);
      SiblingsApart(at, x, y, p);
    }
  }

  // ------------------------------------------------------------- validation

  datatype Ref = Ref(procedure: Option<string>, revision: Option<string>)
  datatype Role = Role(clean: bool, id: Option<string>, refs: seq<Ref>)
  datatype Procedure = Procedure(clean: bool, id: Option<string>, revision: Option<string>)

  /** A manifest: whether the rest of it meets the schema, the fields used here,
      and its canonical JSON without the content hash. */
  datatype Manifest = Manifest(
    clean: bool,
    version: Option<string>,
    roles: seq<string>,
    procedures: seq<string>,
    declared: Option<string>,
    canonical: Bytes)
  {
    function Refs(): seq<string> { roles + procedures }

    predicate AllStay() { forall rel :: rel in Refs() ==> Stays(rel) }

    predicate MeetsSchema() {
      clean && version.Some? && VersionShaped(version.value) && declared.Some? && HashShaped(declared.value)
    }
  }

  /** What the schema's version pattern demands, as far as directories go. */
  predicate VersionShaped(v: string) {
    v != "" && '0' <= v[0] <= '9' && '/' !in v
  }

  predicate Hashed(h: string) { "sha256:" <= h }

  predicate Hex(c: char) { '0' <= c <= '9' || 'a' <= c <= 'f' }

  /** What the schema's hash pattern demands; its `$` allows a line feed behind. */
  predicate HashShaped(h: string) {
    && "sha256:" <= h && |h| >= 71 && (forall i :: 7 <= i < 71 ==> Hex(h[i]))
    && (|h| == 71 || h[71..] == "\n")
  }

  /** Parsing, schema checks and SHA-256. A document that cannot be parsed is None. */
  datatype World = World(
    manifestOf: Bytes -> Option<Manifest>,
    roleOf: Bytes -> Option<Role>,
    procedureOf: Bytes -> Option<Procedure>,
    sha: Bytes -> string,
    pointer: (string, string) -> Bytes)

  const MANIFEST := "manifest.json"

  function Look(fs: Files, dir: Path, rel: string): Option<Bytes> {
    var p := Resolve(dir, rel);
    if p in fs then Some(fs[p]) else None
  }

  /** The role documents by id, and whether none raised an issue. */
  function ReadRoles(w: World, fs: Files, dir: Path, rels: seq<string>): (map<string, Role>, bool) {
    if rels == [] then (map[], true)
    else
      var (roles, ok) := ReadRoles(w, fs, dir, rels[..|rels| - 1]);
      var data := Look(fs, dir, rels[|rels| - 1]);
      var doc := if data.Some? then w.roleOf(data.value) else None;
      if doc.None? then (roles, false)
      else if doc.value.id.None? then (roles, ok && doc.value.clean)
      else (roles[doc.value.id.value := doc.value], ok && doc.value.clean && doc.value.id.value !in roles)
  }

  function ReadProcedures(w: World, fs: Files, dir: Path, rels: seq<string>): (map<string, Procedure>, bool) {
    if rels == [] then (map[], true)
    else
      var (procedures, ok) := ReadProcedures(w, fs, dir, rels[..|rels| - 1]);
      var data := Look(fs, dir, rels[|rels| - 1]);
      var doc := if data.Some? then w.procedureOf(data.value) else None;
      if doc.None? then (procedures, false)
      else if doc.value.id.None? then (procedures, ok && doc.value.clean)
      else (procedures[doc.value.id.value := doc.value], ok && doc.value.clean && doc.value.id.value !in procedures)
  }

  /** Every procedure a role names is there, at the revision named. */
  predicate CrossRefsHold(roles: map<string, Role>, procedures: map<string, Procedure>) {
    forall r, ref :: r in roles && ref in roles[r].refs && ref.procedure.Some? ==>
      ref.procedure.value in procedures
      && (ref.revision.Some? ==> procedures[ref.procedure.value].revision == ref.revision)
  }

  /** The re-check before publication looks at presence only. */
  predicate RefsPresent(roles: map<string, Role>, procedures: map<string, Procedure>) {
    forall r, ref :: r in roles && ref in roles[r].refs && ref.procedure.Some? ==> ref.procedure.value in procedures
  }

  datatype Gathered = Gathered(segments: seq<Segment>) | Unreadable | Oversized

  /** The frames' contents in order, up to the first path that escapes the
      directory, cannot be read, or does not fit its length prefix. */
  function Gather(fs: Files, dir: Path, rels: seq<string>): (r: Gathered)
    ensures r.Gathered? ==> AllFit(r.segments)
  {
    if rels == [] then Gathered([])
    else
      var rel := rels[|rels| - 1];
      match Gather(fs, dir, rels[..|rels| - 1])
      case Gathered(done) =>
        var data := Look(fs, dir, rel);
        if !Under(dir, Resolve(dir, rel)) || data.None? then Unreadable
        else
          var s := Segment(Utf8(rel), data.value);
          if s.Fits() then Gathered(done + [s]) else Oversized
      case stopped => stopped
  }

  datatype Digest = Digest(hash: string) | Failed | Raised

  function ContentHash(w: World, fs: Files, dir: Path, m: Manifest): Digest {
    match Gather(fs, dir, SortedSet(m.Refs()))
    case Gathered(segments) => Digest("sha256:" + w.sha(m.canonical + Frames(segments)))
    case Unreadable => Failed
    case Oversized => Raised
  }

  /** `compute_bundle_content_hash`, feeding the digest one frame at a time. */
  method ComputeContentHash(w: World, fs: Files, dir: Path, m: Manifest) returns (r: Digest)
    ensures r == ContentHash(w, fs, dir, m)
  {
    hide SortedSet, Gather, Resolve, Utf8, Frame, Frames, Under;
    var rels := SortedSet(m.Refs());
    var input := m.canonical;
    GatherNone(fs, dir, rels);
    for i := 0 to |rels|
      invariant Gather(fs, dir, rels[..i]).Gathered?
      invariant input == m.canonical + Frames(Gather(fs, dir, rels[..i]).segments)
    {
      ghost var done := Gather(fs, dir, rels[..i]).segments;
      GatherNext(fs, dir, rels, i);
      var path := Resolve(dir, rels[i]);
      if !Under(dir, path) || path !in fs { return Failed; }
      var s := Segment(Utf8(rels[i]), fs[path]);
      if !s.Fits() { return Raised; }
      Assoc(m.canonical, Frames(done), Frame(s));
      input := input + Frame(s);
    }
    assert rels[..|rels|] == rels;
    r := Digest("sha256:" + w.sha(input));
  }

  lemma GatherNone(fs: Files, dir: Path, rels: seq<string>)
    ensures Gather(fs, dir, rels[..0]) == Gathered([]) && Frames([]) == []
  {
  }

  lemma GatherNext(fs: Files, dir: Path, rels: seq<string>, i: nat)
    requires i < |rels| && Gather(fs, dir, rels[..i]).Gathered?
    ensures var done, path := Gather(fs, dir, rels[..i]).segments, Resolve(dir, rels[i]);
      if !Under(dir, path) || path !in fs then Gather(fs, dir, rels) == Unreadable
      else
        var s := Segment(Utf8(rels[i]), fs[path]);
        if !s.Fits() then Gather(fs, dir, rels) == Oversized
        else Gather(fs, dir, rels[..i + 1]) == Gathered(done + [s]) && Frames(done + [s]) == Frames(done) + Frame(s)
  {
    hide Resolve, Utf8, Frame, Frames, Under;
    var init := rels[..i + 1];
    assert init[..i] == rels[..i] && init[i] == rels[i];
    GatherStops(fs, dir, rels, i + 1);
    var done, data := Gather(fs, dir, rels[..i]).segments, Look(fs, dir, rels[i]);
    if data.Some? && Segment(Utf8(rels[i]), data.value).Fits() {
      FramesAppend(done, Segment(Utf8(rels[i]), data.value));
    }
  }

  lemma FramesAppend(done: seq<Segment>, s: Segment)
    requires AllFit(done) && s.Fits()
    ensures AllFit(done + [s]) && Frames(done + [s]) == Frames(done) + Frame(s)
  {
    hide Frame;
    assert (done + [s])[..|done|] == done;
  }

  lemma {:induction false} GatherStops(fs: Files, dir: Path, rels: seq<string>, i: nat)
    requires i <= |rels|
    ensures !Gather(fs, dir, rels[..i]).Gathered? ==> Gather(fs, dir, rels) == Gather(fs, dir, rels[..i])
    decreases |rels| - i
  {
    if i == |rels| {
      assert rels[..i] == rels;
    } else {
      assert rels[..i + 1][..i] == rels[..i];
      GatherStops(fs, dir, rels, i + 1);
    }
  }

  datatype Verdict = Verdict(
    accepted: bool,
    hash: Option<string>,
    manifest: Option<Manifest>,
    roles: map<string, Role>,
    procedures: map<string, Procedure>)

  /** `validate_bundle`; None when it raises. */
  function Validate(w: World, fs: Files, dir: Path): Option<Verdict> {
    var path := dir + [MANIFEST];
    if path !in fs || w.manifestOf(fs[path]).None? then Some(Verdict(false, None, None, map[], map[]))
    else
      var m := w.manifestOf(fs[path]).value;
      var (roles, rolesOk) := ReadRoles(w, fs, dir, m.roles);
      var (procedures, proceduresOk) := ReadProcedures(w, fs, dir, m.procedures);
      var ok := m.MeetsSchema() && rolesOk && proceduresOk && CrossRefsHold(roles, procedures);
      if m.declared.None? || !Hashed(m.declared.value) then
        Some(Verdict(ok, if ok then m.declared else None, Some(m), roles, procedures))
      else
        match ContentHash(w, fs, dir, m)
        case Raised => None
        case Failed => Some(Verdict(false, None, Some(m), roles, procedures))
        case Digest(h) => Some(Verdict(ok && m.declared.value == h, Some(h), Some(m), roles, procedures))
  }

  datatype Bundle = Bundle(version: string, hash: string, manifest: Manifest)

  /** The checks between validation and publication. */
  function Admit(v: Verdict): Option<Bundle> {
    if !v.accepted || v.manifest.None? then None
    else if v.manifest.value.version.None? || v.manifest.value.version.value == "" then None
    else if v.hash.None? || !Hashed(v.hash.value) then None
    else if !RefsPresent(v.roles, v.procedures) then None
    else Some(Bundle(v.manifest.value.version.value, v.hash.value, v.manifest.value))
  }

  function Accepts(w: World, fs: Files, dir: Path): Option<Bundle> {
    var v := Validate(w, fs, dir);
    if v.None? then None else Admit(v.value)
  }

  /** None of the later checks, the cross-reference re-check among them, can
      fire once validation has accepted; and acceptance says all this. */
  lemma AcceptedIsAdmitted(w: World, fs: Files, dir: Path)
    requires Validate(w, fs, dir).Some?
    ensures var v := Validate(w, fs, dir).value;
      v.accepted <==> Admit(v).Some?
    ensures Accepts(w, fs, dir).Some? ==>
      var b := Accepts(w, fs, dir).value;
      && dir + [MANIFEST] in fs && w.manifestOf(fs[dir + [MANIFEST]]) == Some(b.manifest)
      && VersionShaped(b.version) && b.manifest.version == Some(b.version)
      && ContentHash(w, fs, dir, b.manifest) == Digest(b.hash) && b.manifest.declared == Some(b.hash)
  {
    hide ContentHash, ReadRoles, ReadProcedures;
  }

  // ------------------------------------------------ what acceptance asks for

  /** The document a role path leads to. */
  function RoleAt(w: World, fs: Files, dir: Path, rel: string): Option<Role> {
    var data := Look(fs, dir, rel);
    if data.Some? then w.roleOf(data.value) else None
  }

  function ProcedureAt(w: World, fs: Files, dir: Path, rel: string): Option<Procedure> {
    var data := Look(fs, dir, rel);
    if data.Some? then w.procedureOf(data.value) else None
  }

  /** Every role path leads to a clean document, and no two have the same id. */
  ghost predicate RolesClean(w: World, fs: Files, dir: Path, rels: seq<string>) {
    && (forall rel :: rel in rels ==> RoleAt(w, fs, dir, rel).Some? && RoleAt(w, fs, dir, rel).value.clean)
    && (forall i, j :: 0 <= i < j < |rels| ==> !SameRoleId(w, fs, dir, rels[i], rels[j]))
  }

  predicate SameRoleId(w: World, fs: Files, dir: Path, a: string, b: string) {
    var (d, e) := (RoleAt(w, fs, dir, a), RoleAt(w, fs, dir, b));
    d.Some? && e.Some? && d.value.id.Some? && d.value.id == e.value.id
  }

  ghost predicate ProceduresClean(w: World, fs: Files, dir: Path, rels: seq<string>) {
    && (forall rel :: rel in rels ==> ProcedureAt(w, fs, dir, rel).Some? && ProcedureAt(w, fs, dir, rel).value.clean)
    && (forall i, j :: 0 <= i < j < |rels| ==> !SameProcedureId(w, fs, dir, rels[i], rels[j]))
  }

  predicate SameProcedureId(w: World, fs: Files, dir: Path, a: string, b: string) {
    var (d, e) := (ProcedureAt(w, fs, dir, a), ProcedureAt(w, fs, dir, b));
    d.Some? && e.Some? && d.value.id.Some? && d.value.id == e.value.id
  }

  /** A procedure of the bundle has the id, and the revision if one is asked for. */
  ghost predicate Answers(w: World, fs: Files, dir: Path, rels: seq<string>, id: string, revision: Option<string>) {
    exists rel :: rel in rels && ProcedureAt(w, fs, dir, rel).Some?
      && ProcedureAt(w, fs, dir, rel).value.id == Some(id)
      && (revision.Some? ==> ProcedureAt(w, fs, dir, rel).value.revision == revision)
  }

  /** Every reference of a role with an id is answered. */
  ghost predicate RefsAnswered(w: World, fs: Files, dir: Path, m: Manifest) {
    forall rel, ref :: (rel in m.roles && RoleAt(w, fs, dir, rel).Some? && RoleAt(w, fs, dir, rel).value.id.Some?
        && ref in RoleAt(w, fs, dir, rel).value.refs && ref.procedure.Some?) ==>
      Answers(w, fs, dir, m.procedures, ref.procedure.value, ref.revision)
  }

  /** What makes the bundle at `dir` acceptable. */
  ghost predicate Acceptable(w: World, fs: Files, dir: Path, m: Manifest) {
    && dir + [MANIFEST] in fs && w.manifestOf(fs[dir + [MANIFEST]]) == Some(m)
    && m.clean && m.version.Some? && VersionShaped(m.version.value) && m.declared.Some? && HashShaped(m.declared.value)
    && RolesClean(w, fs, dir, m.roles) && ProceduresClean(w, fs, dir, m.procedures) && RefsAnswered(w, fs, dir, m)
    && ContentHash(w, fs, dir, m) == Digest(m.declared.value)
  }

  /** The roles read, by id: those of the documents, and no others. */
  ghost predicate RolesById(w: World, fs: Files, dir: Path, rels: seq<string>, roles: map<string, Role>) {
    && (forall id :: id in roles ==> roles[id].id == Some(id) && exists rel :: rel in rels && RoleAt(w, fs, dir, rel) == Some(roles[id]))
    && (forall rel :: rel in rels && RoleAt(w, fs, dir, rel).Some? && RoleAt(w, fs, dir, rel).value.id.Some? ==>
          var d := RoleAt(w, fs, dir, rel).value; d.id.value in roles && roles[d.id.value] == d)
  }

  lemma {:induction false} RolesRead(w: World, fs: Files, dir: Path, rels: seq<string>)
    ensures var (roles, ok) := ReadRoles(w, fs, dir, rels);
      (ok <==> RolesClean(w, fs, dir, rels)) && (ok ==> RolesById(w, fs, dir, rels, roles))
  {
    hide RoleAt, RolesClean, RolesById, Look;
    if rels == [] {
      NoRoles(w, fs, dir);
    } else {
      RolesRead(w, fs, dir, rels[..|rels| - 1]);
      RoleStep(w, fs, dir, rels);
      var (before, ok) := ReadRoles(w, fs, dir, rels[..|rels| - 1]);
      if ok { RolesMore(w, fs, dir, rels, before); }
      if RolesClean(w, fs, dir, rels) { RolesFewer(w, fs, dir, rels); }
    }
  }

  lemma NoRoles(w: World, fs: Files, dir: Path)
    ensures RolesClean(w, fs, dir, []) && RolesById(w, fs, dir, [], map[])
  {
  }

  lemma RoleStep(w: World, fs: Files, dir: Path, rels: seq<string>)
    requires rels != []
    ensures var (roles, ok) := ReadRoles(w, fs, dir, rels[..|rels| - 1]);
      var d := RoleAt(w, fs, dir, rels[|rels| - 1]);
      ReadRoles(w, fs, dir, rels) ==
        if d.None? then (roles, false)
        else if d.value.id.None? then (roles, ok && d.value.clean)
        else (roles[d.value.id.value := d.value], ok && d.value.clean && d.value.id.value !in roles)
  {
    hide Look;
  }

  lemma RolesFewer(w: World, fs: Files, dir: Path, rels: seq<string>)
    requires rels != [] && RolesClean(w, fs, dir, rels)
    ensures RolesClean(w, fs, dir, rels[..|rels| - 1])
  {
    hide RoleAt, SameRoleId;
  }

  /** The last document is good exactly when it parses clean under a new id. */
  lemma RolesMore(w: World, fs: Files, dir: Path, rels: seq<string>, roles: map<string, Role>)
    requires rels != [] && RolesClean(w, fs, dir, rels[..|rels| - 1]) && RolesById(w, fs, dir, rels[..|rels| - 1], roles)
    ensures var d := RoleAt(w, fs, dir, rels[|rels| - 1]);
      && (RolesClean(w, fs, dir, rels) <==> d.Some? && d.value.clean && (d.value.id.None? || d.value.id.value !in roles))
      && (RolesClean(w, fs, dir, rels) ==>
            RolesById(w, fs, dir, rels, if d.value.id.None? then roles else roles[d.value.id.value := d.value]))
  {
    hide RoleAt, RolesById, SameRoleId;
    var n := |rels| - 1;
    var d := RoleAt(w, fs, dir, rels[n]);
    assert rels == rels[..n] + [rels[n]];
    assert rels[n] in rels;
    RoleIdTaken(w, fs, dir, rels, roles);
    if d.Some? && d.value.clean && (d.value.id.None? || d.value.id.value !in roles) {
      forall i, j | 0 <= i < j < |rels| ensures !SameRoleId(w, fs, dir, rels[i], rels[j]) {
        if j < n { assert rels[..n][i] == rels[i] && rels[..n][j] == rels[j]; }
      }
    }
    if RolesClean(w, fs, dir, rels) { RolesByIdMore(w, fs, dir, rels, roles); }
  }

  lemma RoleIdTaken(w: World, fs: Files, dir: Path, rels: seq<string>, roles: map<string, Role>)
    requires rels != [] && RolesById(w, fs, dir, rels[..|rels| - 1], roles)
    ensures var n := |rels| - 1; var d := RoleAt(w, fs, dir, rels[n]);
      d.Some? ==>
        ((d.value.id.Some? && d.value.id.value in roles) <==> exists i :: 0 <= i < n && SameRoleId(w, fs, dir, rels[i], rels[n]))
  {
    hide RoleAt;
    var n := |rels| - 1;
    var d := RoleAt(w, fs, dir, rels[n]);
    if d.Some? && d.value.id.Some? && d.value.id.value in roles {
      var rel :| rel in rels[..n] && RoleAt(w, fs, dir, rel) == Some(roles[d.value.id.value]);
      var i :| 0 <= i < n && rels[..n][i] == rel;
      assert SameRoleId(w, fs, dir, rels[i], rels[n]);
    }
    if i :| 0 <= i < n && SameRoleId(w, fs, dir, rels[i], rels[n]) {
      assert rels[..n][i] == rels[i] && rels[i] in rels[..n];
    }
  }

  lemma RolesByIdMore(w: World, fs: Files, dir: Path, rels: seq<string>, roles: map<string, Role>)
    requires rels != [] && RolesById(w, fs, dir, rels[..|rels| - 1], roles)
    requires var d := RoleAt(w, fs, dir, rels[|rels| - 1]); d.Some? && (d.value.id.None? || d.value.id.value !in roles)
    ensures var d := RoleAt(w, fs, dir, rels[|rels| - 1]);
      RolesById(w, fs, dir, rels, if d.value.id.None? then roles else roles[d.value.id.value := d.value])
  {
    hide RoleAt;
    var n := |rels| - 1;
    assert rels == rels[..n] + [rels[n]];
    assert rels[n] in rels;
    forall id | id in roles ensures exists rel :: rel in rels && RoleAt(w, fs, dir, rel) == Some(roles[id]) {
      var rel :| rel in rels[..n] && RoleAt(w, fs, dir, rel) == Some(roles[id]);
      assert rel in rels;
    }
  }

  /** The procedures read, by id: those of the documents, and no others. */
  ghost predicate ProceduresById(w: World, fs: Files, dir: Path, rels: seq<string>, procedures: map<string, Procedure>) {
    && (forall id :: id in procedures ==> procedures[id].id == Some(id) && exists rel :: rel in rels && ProcedureAt(w, fs, dir, rel) == Some(procedures[id]))
    && (forall rel :: rel in rels && ProcedureAt(w, fs, dir, rel).Some? && ProcedureAt(w, fs, dir, rel).value.id.Some? ==>
          var d := ProcedureAt(w, fs, dir, rel).value; d.id.value in procedures && procedures[d.id.value] == d)
  }

  lemma {:induction false} ProceduresRead(w: World, fs: Files, dir: Path, rels: seq<string>)
    ensures var (procedures, ok) := ReadProcedures(w, fs, dir, rels);
      (ok <==> ProceduresClean(w, fs, dir, rels)) && (ok ==> ProceduresById(w, fs, dir, rels, procedures))
  {
    hide ProcedureAt, ProceduresClean, ProceduresById, Look;
    if rels == [] {
      NoProcedures(w, fs, dir);
    } else {
      ProceduresRead(w, fs, dir, rels[..|rels| - 1]);
      ProcedureStep(w, fs, dir, rels);
      var (before, ok) := ReadProcedures(w, fs, dir, rels[..|rels| - 1]);
      if ok { ProceduresMore(w, fs, dir, rels, before); }
      if ProceduresClean(w, fs, dir, rels) { ProceduresFewer(w, fs, dir, rels); }
    }
  }

  lemma NoProcedures(w: World, fs: Files, dir: Path)
    ensures ProceduresClean(w, fs, dir, []) && ProceduresById(w, fs, dir, [], map[])
  {
  }

  lemma ProcedureStep(w: World, fs: Files, dir: Path, rels: seq<string>)
    requires rels != []
    ensures var (procedures, ok) := ReadProcedures(w, fs, dir, rels[..|rels| - 1]);
      var d := ProcedureAt(w, fs, dir, rels[|rels| - 1]);
      ReadProcedures(w, fs, dir, rels) ==
        if d.None? then (procedures, false)
        else if d.value.id.None? then (procedures, ok && d.value.clean)
        else (procedures[d.value.id.value := d.value], ok && d.value.clean && d.value.id.value !in procedures)
  {
    hide Look;
  }

  lemma ProceduresFewer(w: World, fs: Files, dir: Path, rels: seq<string>)
    requires rels != [] && ProceduresClean(w, fs, dir, rels)
    ensures ProceduresClean(w, fs, dir, rels[..|rels| - 1])
  {
    hide ProcedureAt, SameProcedureId;
  }

  /** The last document is good exactly when it parses clean under a new id. */
  lemma ProceduresMore(w: World, fs: Files, dir: Path, rels: seq<string>, procedures: map<string, Procedure>)
    requires rels != [] && ProceduresClean(w, fs, dir, rels[..|rels| - 1]) && ProceduresById(w, fs, dir, rels[..|rels| - 1], procedures)
    ensures var d := ProcedureAt(w, fs, dir, rels[|rels| - 1]);
      && (ProceduresClean(w, fs, dir, rels) <==> d.Some? && d.value.clean && (d.value.id.None? || d.value.id.value !in procedures))
      && (ProceduresClean(w, fs, dir, rels) ==>
            ProceduresById(w, fs, dir, rels, if d.value.id.None? then procedures else procedures[d.value.id.value := d.value]))
  {
    hide ProcedureAt, ProceduresById, SameProcedureId;
    var n := |rels| - 1;
    var d := ProcedureAt(w, fs, dir, rels[n]);
    assert rels == rels[..n] + [rels[n]];
    assert rels[n] in rels;
    ProcedureIdTaken(w, fs, dir, rels, procedures);
    if d.Some? && d.value.clean && (d.value.id.None? || d.value.id.value !in procedures) {
      forall i, j | 0 <= i < j < |rels| ensures !SameProcedureId(w, fs, dir, rels[i], rels[j]) {
        if j < n { assert rels[..n][i] == rels[i] && rels[..n][j] == rels[j]; }
      }
    }
    if ProceduresClean(w, fs, dir, rels) { ProceduresByIdMore(w, fs, dir, rels, procedures); }
  }

  lemma ProcedureIdTaken(w: World, fs: Files, dir: Path, rels: seq<string>, procedures: map<string, Procedure>)
    requires rels != [] && ProceduresById(w, fs, dir, rels[..|rels| - 1], procedures)
    ensures var n := |rels| - 1; var d := ProcedureAt(w, fs, dir, rels[n]);
      d.Some? ==>
        ((d.value.id.Some? && d.value.id.value in procedures) <==> exists i :: 0 <= i < n && SameProcedureId(w, fs, dir, rels[i], rels[n]))
  {
    hide ProcedureAt;
    var n := |rels| - 1;
    var d := ProcedureAt(w, fs, dir, rels[n]);
    if d.Some? && d.value.id.Some? && d.value.id.value in procedures {
      var rel :| rel in rels[..n] && ProcedureAt(w, fs, dir, rel) == Some(procedures[d.value.id.value]);
      var i :| 0 <= i < n && rels[..n][i] == rel;
      assert SameProcedureId(w, fs, dir, rels[i], rels[n]);
    }
    if i :| 0 <= i < n && SameProcedureId(w, fs, dir, rels[i], rels[n]) {
      assert rels[..n][i] == rels[i] && rels[i] in rels[..n];
    }
  }

  lemma ProceduresByIdMore(w: World, fs: Files, dir: Path, rels: seq<string>, procedures: map<string, Procedure>)
    requires rels != [] && ProceduresById(w, fs, dir, rels[..|rels| - 1], procedures)
    requires var d := ProcedureAt(w, fs, dir, rels[|rels| - 1]); d.Some? && (d.value.id.None? || d.value.id.value !in procedures)
    ensures var d := ProcedureAt(w, fs, dir, rels[|rels| - 1]);
      ProceduresById(w, fs, dir, rels, if d.value.id.None? then procedures else procedures[d.value.id.value := d.value])
  {
    hide ProcedureAt;
    var n := |rels| - 1;
    assert rels == rels[..n] + [rels[n]];
    assert rels[n] in rels;
    forall id | id in procedures ensures exists rel :: rel in rels && ProcedureAt(w, fs, dir, rel) == Some(procedures[id]) {
      var rel :| rel in rels[..n] && ProcedureAt(w, fs, dir, rel) == Some(procedures[id]);
      assert rel in rels;
    }
  }

  lemma CrossRefsIff(w: World, fs: Files, dir: Path, m: Manifest, roles: map<string, Role>, procedures: map<string, Procedure>)
    requires RolesById(w, fs, dir, m.roles, roles) && ProceduresById(w, fs, dir, m.procedures, procedures)
    ensures CrossRefsHold(roles, procedures) <==> RefsAnswered(w, fs, dir, m)
  {
    hide RoleAt, ProcedureAt;
    if CrossRefsHold(roles, procedures) {
      forall rel, ref | rel in m.roles && RoleAt(w, fs, dir, rel).Some? && RoleAt(w, fs, dir, rel).value.id.Some?
        && ref in RoleAt(w, fs, dir, rel).value.refs && ref.procedure.Some?
        ensures Answers(w, fs, dir, m.procedures, ref.procedure.value, ref.revision)
      {
        var r := RoleAt(w, fs, dir, rel).value;
        assert r.id.value in roles && roles[r.id.value] == r;
      }
    }
    if RefsAnswered(w, fs, dir, m) {
      forall r, ref | r in roles && ref in roles[r].refs && ref.procedure.Some?
        ensures ref.procedure.value in procedures
        ensures ref.revision.Some? ==> procedures[ref.procedure.value].revision == ref.revision
      {
        var rel :| rel in m.roles && RoleAt(w, fs, dir, rel) == Some(roles[r]);
        assert Answers(w, fs, dir, m.procedures, ref.procedure.value, ref.revision);
      }
    }
  }

  /** A bundle is accepted exactly when its manifest, roles and procedures are in
      order, every reference is answered at its revision, and the hash is right. */
  lemma AcceptsIff(w: World, fs: Files, dir: Path)
    ensures Accepts(w, fs, dir).Some? <==> exists m :: Acceptable(w, fs, dir, m)
    ensures Accepts(w, fs, dir).Some? ==>
      var b := Accepts(w, fs, dir).value;
      Acceptable(w, fs, dir, b.manifest) && b.manifest.version == Some(b.version) && b.manifest.declared == Some(b.hash)
  {
    hide ReadRoles, ReadProcedures, ContentHash, RolesClean, ProceduresClean, RefsAnswered, CrossRefsHold, VersionShaped,
      HashShaped, RolesById, ProceduresById, RefsPresent;
    var path := dir + [MANIFEST];
    if path in fs && w.manifestOf(fs[path]).Some? {
      var m := w.manifestOf(fs[path]).value;
      RolesRead(w, fs, dir, m.roles);
      ProceduresRead(w, fs, dir, m.procedures);
      var (roles, rolesOk) := ReadRoles(w, fs, dir, m.roles);
      var (procedures, proceduresOk) := ReadProcedures(w, fs, dir, m.procedures);
      if rolesOk && proceduresOk { CrossRefsIff(w, fs, dir, m, roles, procedures); }
      CrossRefsPresent(roles, procedures);
      ShapesAreSound(m);
      assert Accepts(w, fs, dir).Some? <==> Acceptable(w, fs, dir, m);
    }
  }

  lemma CrossRefsPresent(roles: map<string, Role>, procedures: map<string, Procedure>)
    ensures CrossRefsHold(roles, procedures) ==> RefsPresent(roles, procedures)
  {
  }

  lemma ShapesAreSound(m: Manifest)
    ensures m.declared.Some? && HashShaped(m.declared.value) ==> Hashed(m.declared.value)
    ensures m.version.Some? && VersionShaped(m.version.value) ==> m.version.value != ""
  {
  }

  // ------------------------------------------- validation sees only its tree

  /** Two directories with the same files below them. */
  ghost predicate SameTree(fs: Files, dir: Path, fs': Files, dir': Path) {
    forall q: Path :: (dir + q in fs <==> dir' + q in fs') && (dir + q in fs ==> fs[dir + q] == fs'[dir' + q])
  }

  ghost predicate LooksSame(fs: Files, dir: Path, fs': Files, dir': Path, rel: string) {
    && Look(fs, dir, rel) == Look(fs', dir', rel)
    && Under(dir, Resolve(dir, rel)) && Under(dir', Resolve(dir', rel))
  }

  /** The references lead inside both directories, and to the same contents. */
  ghost predicate SameLooks(fs: Files, dir: Path, fs': Files, dir': Path, rels: seq<string>) {
    forall rel :: rel in rels ==> LooksSame(fs, dir, fs', dir', rel)
  }

  lemma StayingLooksSame(fs: Files, dir: Path, fs': Files, dir': Path, rel: string)
    requires SameTree(fs, dir, fs', dir') && Stays(rel)
    ensures LooksSame(fs, dir, fs', dir', rel)
  {
    WalkStays(dir, Parts(rel));
    WalkStays(dir', Parts(rel));
  }

  lemma {:induction false} RolesLocal(w: World, fs: Files, dir: Path, fs': Files, dir': Path, rels: seq<string>)
    requires SameLooks(fs, dir, fs', dir', rels)
    ensures ReadRoles(w, fs, dir, rels) == ReadRoles(w, fs', dir', rels)
  {
    if rels != [] {
      hide Look;
      RolesLocal(w, fs, dir, fs', dir', rels[..|rels| - 1]);
      assert LooksSame(fs, dir, fs', dir', rels[|rels| - 1]);
    }
  }

  lemma {:induction false} ProceduresLocal(w: World, fs: Files, dir: Path, fs': Files, dir': Path, rels: seq<string>)
    requires SameLooks(fs, dir, fs', dir', rels)
    ensures ReadProcedures(w, fs, dir, rels) == ReadProcedures(w, fs', dir', rels)
  {
    if rels != [] {
      hide Look;
      ProceduresLocal(w, fs, dir, fs', dir', rels[..|rels| - 1]);
      assert LooksSame(fs, dir, fs', dir', rels[|rels| - 1]);
    }
  }

  lemma {:induction false} GatherLocal(fs: Files, dir: Path, fs': Files, dir': Path, rels: seq<string>)
    requires SameLooks(fs, dir, fs', dir', rels)
    ensures Gather(fs, dir, rels) == Gather(fs', dir', rels)
  {
    if rels != [] {
      hide Look, Utf8;
      GatherLocal(fs, dir, fs', dir', rels[..|rels| - 1]);
      assert LooksSame(fs, dir, fs', dir', rels[|rels| - 1]);
    }
  }

  lemma HashLocal(w: World, fs: Files, dir: Path, fs': Files, dir': Path, m: Manifest)
    requires SameLooks(fs, dir, fs', dir', m.Refs())
    ensures ContentHash(w, fs, dir, m) == ContentHash(w, fs', dir', m)
  {
    hide LooksSame, Gather, Frames;
    SortedSetSorts(m.Refs());
    GatherLocal(fs, dir, fs', dir', SortedSet(m.Refs()));
  }

  /** A verdict depends on the manifest and on what its references lead to. */
  lemma ValidateLocal(w: World, fs: Files, dir: Path, fs': Files, dir': Path, m: Manifest)
    requires dir + [MANIFEST] in fs && w.manifestOf(fs[dir + [MANIFEST]]) == Some(m)
    requires dir' + [MANIFEST] in fs' && fs'[dir' + [MANIFEST]] == fs[dir + [MANIFEST]]
    requires SameLooks(fs, dir, fs', dir', m.Refs())
    ensures Validate(w, fs, dir) == Validate(w, fs', dir')
    ensures Accepts(w, fs, dir) == Accepts(w, fs', dir')
  {
    hide LooksSame, ContentHash, ReadRoles, ReadProcedures, CrossRefsHold, Admit;
    RolesLocal(w, fs, dir, fs', dir', m.roles);
    ProceduresLocal(w, fs, dir, fs', dir', m.procedures);
    HashLocal(w, fs, dir, fs', dir', m);
  }

  /** Moving a tree, or changing files elsewhere, does not change its verdict as
      long as no reference climbs out of it. */
  lemma ValidateMoved(w: World, fs: Files, dir: Path, fs': Files, dir': Path, m: Manifest)
    requires SameTree(fs, dir, fs', dir') && m.AllStay()
    requires dir + [MANIFEST] in fs && w.manifestOf(fs[dir + [MANIFEST]]) == Some(m)
    ensures dir' + [MANIFEST] in fs' && fs'[dir' + [MANIFEST]] == fs[dir + [MANIFEST]]
    ensures Validate(w, fs, dir) == Validate(w, fs', dir')
    ensures Accepts(w, fs, dir) == Accepts(w, fs', dir')
  {
    hide Stays, Validate, Accepts;
    forall rel | rel in m.Refs() ensures LooksSame(fs, dir, fs', dir', rel) {
      StayingLooksSame(fs, dir, fs', dir', rel);
    }
    ValidateLocal(w, fs, dir, fs', dir', m);
  }

  /** No reference of an accepted bundle leads outside its directory. */
  lemma AcceptedStaysInside(w: World, fs: Files, dir: Path)
    requires Accepts(w, fs, dir).Some?
    ensures forall rel :: rel in Accepts(w, fs, dir).value.manifest.Refs() ==> Under(dir, Resolve(dir, rel))
  {
    hide Resolve, Gather, Validate, ContentHash, Under;
    AcceptedIsAdmitted(w, fs, dir);
    var m := Accepts(w, fs, dir).value.manifest;
    SortedSetSorts(m.Refs());
    forall rel | rel in m.Refs() ensures Under(dir, Resolve(dir, rel)) {
      assert rel in SortedSet(m.Refs());
      GatheredInside(w, fs, dir, m, rel);
    }
  }

  lemma GatheredInside(w: World, fs: Files, dir: Path, m: Manifest, rel: string)
    requires ContentHash(w, fs, dir, m).Digest? && rel in SortedSet(m.Refs())
    ensures Under(dir, Resolve(dir, rel))
  {
    hide Resolve, Gather, Under;
    var rels := SortedSet(m.Refs());
    var i :| 0 <= i < |rels| && rels[i] == rel;
    GatherStops(fs, dir, rels, i + 1);
    GatherAt(fs, dir, rels, i);
  }

  lemma GatherAt(fs: Files, dir: Path, rels: seq<string>, i: nat)
    requires i < |rels| && Gather(fs, dir, rels[..i + 1]).Gathered?
    ensures Under(dir, Resolve(dir, rels[i])) && Look(fs, dir, rels[i]).Some?
  {
    hide Resolve, Under;
    assert rels[..i + 1][i] == rels[i];
  }

  // ---------------------------------------------------------------- staging

  function Without(fs: Files, dir: Path): Files {
    map q | q in fs && !Under(dir, q) :: fs[q]
  }

  /** The tree at `from`, renamed to `to`. */
  function Moved(fs: Files, from: Path, to: Path): Files {
    map q | q in Without(fs, from).Keys + (set p | p in fs && Under(from, p) :: to + p[|from|..]) ::
      if q in Without(fs, from) then fs[q]
      else if Under(to, q) && from + q[|to|..] in fs then fs[from + q[|to|..]]
      else []
  }

  lemma MovedAt(fs: Files, from: Path, to: Path)
    requires !Under(from, to) && !Present(fs, to)
    ensures SameTree(fs, from, Moved(fs, from, to), to)
    ensures forall q :: Under(from, q) || Under(to, q) || SameAt(fs, Moved(fs, from, to), q)
  {
    var now := Moved(fs, from, to);
    forall q: Path
      ensures from + q in fs <==> to + q in now
      ensures from + q in fs ==> fs[from + q] == now[to + q]
    {
      assert (to + q)[|to|..] == q && (from + q)[|from|..] == q;
      assert Under(to, to + q);
      if from + q in fs {
        assert to + (from + q)[|from|..] == to + q;
      }
      if to + q in now {
        assert to + q !in fs;
        var p :| p in fs && Under(from, p) && to + p[|from|..] == to + q;
        assert (to + p[|from|..])[|to|..] == p[|from|..];
        assert from + p[|from|..] == p;
      }
    }
    forall p | p in fs && Under(from, p) ensures Under(to, to + p[|from|..]) {
    }
  }

  /** Copies the referenced files one by one; None when a path escapes the
      source, is missing, or would be copied onto itself. */
  function Copied(fs: Files, source: Path, dest: Path, rels: seq<string>): Option<Files> {
    if rels == [] then Some(fs)
    else
      var before, rel := Copied(fs, source, dest, rels[..|rels| - 1]), rels[|rels| - 1];
      var from, out := Resolve(source, rel), Resolve(dest, rel);
      if before.None? || !Under(source, from) || from !in before.value || from == out then None
      else Some(before.value[out := before.value[from]])
  }

  function PublishedPaths(m: Manifest): seq<string> { [MANIFEST] + m.Refs() }

  /** Copying stops at a file that would be copied onto itself. */
  predicate SelfFree(source: Path, dest: Path, rels: seq<string>) {
    forall rel :: rel in rels ==> Resolve(source, rel) != Resolve(dest, rel)
  }

  /** `q` is a place some file is copied to before copying stops for that. */
  ghost predicate Reached(source: Path, dest: Path, rels: seq<string>, q: Path) {
    exists k :: 0 <= k < |rels| && Resolve(dest, rels[k]) == q && SelfFree(source, dest, rels[..k + 1])
  }

  /** The files when copying has got as far as it gets. */
  function CopiedFar(fs: Files, source: Path, dest: Path, rels: seq<string>): Files
    decreases |rels|
  {
    var all := Copied(fs, source, dest, rels);
    if all.Some? then all.value else CopiedFar(fs, source, dest, rels[..|rels| - 1])
  }

  // ------------------------------------------------------------ publication

  function BundleDir(root: Path, version: string): Path { root + ["bundles"] + [version] }
  function StagingDir(root: Path, version: string): Path { root + ["bundles"] + [".staging-" + version] }
  function PointerAt(root: Path): Path { root + ["active-bundle.json"] }

  lemma PlacesApart(root: Path, v: string, v': string)
    requires VersionShaped(v)
    ensures forall q :: !(Under(BundleDir(root, v), q) && Under(StagingDir(root, v'), q))
    ensures !Under(BundleDir(root, v), PointerAt(root)) && !Under(StagingDir(root, v'), PointerAt(root))
    ensures v != v' ==> forall q :: !(Under(BundleDir(root, v), q) && Under(BundleDir(root, v'), q))
  {
    var s := ".staging-" + v';
    assert s[0] == '.' && v != s;
    forall q ensures !(Under(BundleDir(root, v), q) && Under(StagingDir(root, v'), q)) {
      SiblingsApart(root + ["bundles"], v, s, q);
    }
    forall q | v != v' ensures !(Under(BundleDir(root, v), q) && Under(BundleDir(root, v'), q)) {
      SiblingsApart(root + ["bundles"], v, v', q);
    }
  }

  /** The hash a published directory is taken to have. */
  function ExistingHash(w: World, fs: Files, dir: Path): Digest {
    var path := dir + [MANIFEST];
    var m := if path in fs then w.manifestOf(fs[path]) else None;
    if m.None? || m.value.declared.None? || !Hashed(m.value.declared.value) then Failed
    else
      match ContentHash(w, fs, dir, m.value)
      case Digest(h) => Digest(h)
      case Failed => Digest(m.value.declared.value)
      case Raised => Raised
  }

  function StagedFrom(fs: Files, root: Path, source: Path, b: Bundle): Option<Files> {
    var s := StagingDir(root, b.version);
    Copied(Without(fs, s), source, s, PublishedPaths(b.manifest))
  }

  /** What a refused publication leaves: all that was copied, less staging. */
  function Leftover(fs: Files, root: Path, source: Path, b: Bundle): Files {
    var s := StagingDir(root, b.version);
    Without(CopiedFar(Without(fs, s), source, s, PublishedPaths(b.manifest)), s)
  }

  /** Copying into staging yields `staged`, which validates with the same hash. */
  predicate StagesAs(w: World, fs: Files, root: Path, source: Path, b: Bundle, staged: Files) {
    && StagedFrom(fs, root, source, b) == Some(staged)
    && Accepts(w, staged, StagingDir(root, b.version)).Some?
    && Accepts(w, staged, StagingDir(root, b.version)).value.hash == b.hash
    && !Present(staged, BundleDir(root, b.version))
  }

  predicate Stageable(w: World, fs: Files, root: Path, source: Path, b: Bundle) {
    StagedFrom(fs, root, source, b).Some? && StagesAs(w, fs, root, source, b, StagedFrom(fs, root, source, b).value)
  }

  /** The bundle is there already, or can be staged. */
  predicate Ready(w: World, fs: Files, root: Path, source: Path, b: Bundle) {
    var v := BundleDir(root, b.version);
    if Present(fs, v) then ExistingHash(w, fs, v) == Digest(b.hash)
    else Stageable(w, fs, root, source, b)
  }

  /** When a publication that meets no failing operation completes. */
  predicate Publishable(w: World, fs: Files, root: Path, source: Path) {
    var b := Accepts(w, fs, source);
    b.Some? && Ready(w, fs, root, source, b.value)
  }

  /** The store after a completed publication. */
  function Completed(w: World, fs: Files, root: Path, b: Bundle, staged: Files): Files {
    var s, v := StagingDir(root, b.version), BundleDir(root, b.version);
    (if Present(fs, v) then fs else Moved(staged, s, v))[PointerAt(root) := w.pointer(b.version, b.hash)]
  }

  datatype Outcome = Done(bundle: Bundle, idempotent: bool) | Refused

  /** What has happened to the store: no bundle put in place or confirmed, one
      with the active file left alone, with the active file half written, or pointed at. */
  datatype Effect = Untouched | Placed | Torn | Pointed

  ghost predicate Pointing(w: World, root: Path, b: Bundle, now: Files, effect: Effect) {
    effect.Pointed? ==> PointerAt(root) in now && now[PointerAt(root)] == w.pointer(b.version, b.hash)
  }

  /** What publishing `b` as a new version may write to. */
  ghost predicate Mine(root: Path, source: Path, b: Bundle, effect: Effect, q: Path) {
    || Under(StagingDir(root, b.version), q)
    || Reached(source, StagingDir(root, b.version), PublishedPaths(b.manifest), q)
    || (!effect.Untouched? && Under(BundleDir(root, b.version), q))
    || ((effect.Torn? || effect.Pointed?) && q == PointerAt(root))
  }

  /** A publication of `b`, from any of its failure points. */
  ghost predicate Advance(w: World, root: Path, source: Path, b: Bundle, was: Files, now: Files,
      effect: Effect, staged: Files)
  {
    var s, v := StagingDir(root, b.version), BundleDir(root, b.version);
    && Pointing(w, root, b, now, effect)
    && if Present(was, v) then
      && (effect.Untouched? || effect.Placed? ==> now == was)
      && (!effect.Untouched? ==> ExistingHash(w, was, v) == Digest(b.hash))
      && forall q :: q == PointerAt(root) || SameAt(was, now, q)
    else
      && (!effect.Untouched? ==> StagesAs(w, was, root, source, b, staged) && SameTree(staged, s, now, v))
      && forall q :: Mine(root, source, b, effect, q) || SameAt(was, now, q)
  }

  class Store {
    const w: World
    const root: Path
    var fs: Files
    ghost var faulty: bool

    constructor (w: World, root: Path, fs: Files)
      ensures this.w == w && this.root == root && this.fs == fs && !faulty
    {
      this.w, this.root, this.fs, faulty := w, root, fs, false;
    }

    /** Writes one file; a failure may leave anything in it. */
    method Put(p: Path, data: Bytes) returns (ok: bool)
      modifies `fs, `faulty
      ensures faulty == (old(faulty) || !ok)
      ensures ok ==> fs == old(fs)[p := data]
      ensures forall q :: q == p || SameAt(old(fs), fs, q)
    {
      ok := *;
      faulty := faulty || !ok;
      var half: Option<Bytes> := *;
      fs := if ok then fs[p := data] else if half.Some? then fs[p := half.value] else fs;
    }

    /** Removes a directory; a failure may leave any of it. */
    method RemoveTree(dir: Path) returns (ok: bool)
      modifies `fs, `faulty
      ensures faulty == (old(faulty) || !ok)
      ensures ok ==> fs == Without(old(fs), dir)
      ensures forall q :: Under(dir, q) || SameAt(old(fs), fs, q)
      ensures forall q :: q in fs ==> SameAt(old(fs), fs, q)
    {
      ok := *;
      faulty := faulty || !ok;
      var kept: set<Path> := *;
      fs := map q | q in fs && (!Under(dir, q) || (!ok && q in kept)) :: fs[q];
    }

    /** Renames a directory, which the host refuses when the target holds files. */
    method Rename(from: Path, to: Path) returns (ok: bool)
      modifies `fs, `faulty
      ensures ok ==> !Present(old(fs), to) && faulty == old(faulty)
      ensures !ok ==> faulty || Present(old(fs), to)
      ensures old(faulty) ==> faulty
      ensures fs == if ok then Moved(old(fs), from, to) else old(fs)
    {
      if Present(fs, to) { return false; }
      ok := *;
      faulty := faulty || !ok;
      if ok { fs := Moved(fs, from, to); }
    }

    method CopyPublishedFiles(source: Path, dest: Path, m: Manifest) returns (ok: bool)
      modifies `fs, `faulty
      ensures ok ==> Copied(old(fs), source, dest, PublishedPaths(m)) == Some(fs) && faulty == old(faulty)
      ensures !ok && !faulty ==> Copied(old(fs), source, dest, PublishedPaths(m)).None?
      ensures !faulty ==> fs == CopiedFar(old(fs), source, dest, PublishedPaths(m))
      ensures old(faulty) ==> faulty
      ensures forall q :: Reached(source, dest, PublishedPaths(m), q) || SameAt(old(fs), fs, q)
    {
      hide Resolve, Under, PublishedPaths, CopiedFar;
      var rels := PublishedPaths(m);
      ghost var start := fs;
      for i := 0 to |rels|
        invariant Copied(start, source, dest, rels[..i]) == Some(fs) && faulty == old(faulty)
        invariant SelfFree(source, dest, rels[..i])
        invariant forall q :: Reached(source, dest, rels, q) || SameAt(start, fs, q)
      {
        assert rels[..i + 1][..i] == rels[..i];
        CopiedStops(start, source, dest, rels, i + 1);
        var from, out := Resolve(source, rels[i]), Resolve(dest, rels[i]);
        if !Under(source, from) || from !in fs || from == out {
          FarStops(start, source, dest, rels, i, |rels|);
          assert rels[..|rels|] == rels;
          return false;
        }
        assert SelfFree(source, dest, rels[..i + 1]);
        ghost var was := fs;
        ok := Put(out, fs[from]);
        forall q ensures Reached(source, dest, rels, q) || SameAt(start, fs, q) {
          assert Reached(source, dest, rels, q) || SameAt(start, was, q);
          assert q == out || SameAt(was, fs, q);
        }
        if !ok { return; }
      }
      assert rels[..|rels|] == rels;
      FarIsAll(start, source, dest, rels);
      ok := true;
    }

    /** Copies into an emptied staging directory, validates it, and renames it. */
    method StageBundle(source: Path, b: Bundle) returns (ok: bool, ghost staged: Files)
      requires VersionShaped(b.version) && !Present(fs, BundleDir(root, b.version))
      modifies `fs, `faulty
      ensures old(faulty) ==> faulty
      ensures ok ==> faulty == old(faulty) && StagesAs(w, old(fs), root, source, b, staged)
      ensures ok ==> fs == Moved(staged, StagingDir(root, b.version), BundleDir(root, b.version))
      ensures ok ==> SameTree(staged, StagingDir(root, b.version), fs, BundleDir(root, b.version))
      ensures ok ==> forall q :: Mine(root, source, b, Placed, q) || SameAt(old(fs), fs, q)
      ensures !ok ==> forall q :: Mine(root, source, b, Untouched, q) || SameAt(old(fs), fs, q)
      ensures !ok && !faulty ==> !Stageable(w, old(fs), root, source, b)
      ensures !ok && !faulty ==> fs == Leftover(old(fs), root, source, b)
    {
      hide Copied, Accepts, Under, Reached, Moved, CopiedFar;
      var s, v := StagingDir(root, b.version), BundleDir(root, b.version);
      ghost var start := fs;
      staged := fs;
      if Present(fs, s) {
        ok := RemoveTree(s);
        if !ok { return; }
      }
      NothingToRemove(start, s);
      assert fs == Without(start, s);
      ghost var empty := fs;
      ok := CopyPublishedFiles(source, s, b.manifest);
      staged := fs;
      MineGrows(root, source, b, s, start, empty, staged);
      if ok {
        var again := Accepts(w, fs, s);
        ok := again.Some? && again.value.hash == b.hash;
      }
      if ok {
        ok := Rename(s, v);
      }
      if ok {
        PlacesApart(root, b.version, b.version);
        StagingApart(root, b.version);
        MovedAt(staged, s, v);
        MineMoved(root, source, b, start, staged, fs);
      } else {
        ghost var before := fs;
        NothingToRemove(fs, s);
        if Present(fs, s) {
          var removed := RemoveTree(s);
        }
        MineCleared(root, source, b, start, before, fs);
      }
    }

    method WriteActivePointer(b: Bundle) returns (ok: bool, ghost effect: Effect)
      modifies `fs, `faulty
      ensures faulty == (old(faulty) || !ok)
      ensures ok ==> fs == old(fs)[PointerAt(root) := w.pointer(b.version, b.hash)]
      ensures forall q :: q == PointerAt(root) || SameAt(old(fs), fs, q)
      ensures effect == if ok then Pointed else Torn
    {
      ok := Put(PointerAt(root), w.pointer(b.version, b.hash));
      effect := if ok then Pointed else Torn;
    }

    method PublishAccepted(source: Path, b: Bundle) returns (ok: bool, ghost effect: Effect, ghost staged: Files)
      requires VersionShaped(b.version)
      modifies `fs, `faulty
      ensures old(faulty) ==> faulty
      ensures ok ==> effect.Pointed? && Ready(w, old(fs), root, source, b)
      ensures ok ==> faulty == old(faulty)
      ensures ok ==> fs == Completed(w, old(fs), root, b, staged)
      ensures !ok && !faulty ==> !Ready(w, old(fs), root, source, b)
      ensures !ok && !faulty ==>
        fs == if Present(old(fs), BundleDir(root, b.version)) then old(fs) else Leftover(old(fs), root, source, b)
      ensures Advance(w, root, source, b, old(fs), fs, effect, staged)
    {
      hide StagesAs, Moved, ExistingHash, SameTree, Under, Reached, ContentHash, VersionShaped, Stageable, Accepts, Mine;
      ghost var start := fs;
      var v := BundleDir(root, b.version);
      effect, staged := Untouched, fs;
      if Present(fs, v) {
        if ExistingHash(w, fs, v) != Digest(b.hash) { return false, Untouched, fs; }
        ok, effect := WriteActivePointer(b);
      } else {
        ok, staged := StageBundle(source, b);
        if !ok { return; }
        ghost var renamed := fs;
        StagesStageable(w, start, root, source, b, staged);
        ok, effect := WriteActivePointer(b);
        PointerAside(root, source, b, start, renamed, fs, effect, staged);
      }
    }

    /** Publishes the bundle at `source`. It completes exactly when it should,
        unless an operation fails; and from wherever it stops, an accepted bundle
        has advanced the store and a rejected one has not touched it. What it leaves
        when no operation fails is determined. */
    method PublishBundle(source: Path) returns (outcome: Outcome, ghost effect: Effect, ghost staged: Files)
      modifies `fs, `faulty
      ensures outcome.Done? ==> !faulty && effect.Pointed? && Publishable(w, old(fs), root, source)
      ensures !outcome.Done? && !faulty ==> !Publishable(w, old(fs), root, source)
      ensures Accepts(w, old(fs), source).None? ==> fs == old(fs)
      ensures Accepts(w, old(fs), source).Some? ==>
        Advance(w, root, source, Accepts(w, old(fs), source).value, old(fs), fs, effect, staged)
      ensures outcome.Done? ==> Accepts(w, old(fs), source) == Some(outcome.bundle)
      ensures outcome.Done? ==> Acceptable(w, old(fs), source, outcome.bundle.manifest)
      ensures !outcome.Done? && (forall m :: !Acceptable(w, old(fs), source, m)) ==> fs == old(fs)
      ensures outcome.Done? ==> outcome.idempotent == Present(old(fs), BundleDir(root, outcome.bundle.version))
      ensures outcome.Done? ==> fs == Completed(w, old(fs), root, outcome.bundle, staged)
      ensures !outcome.Done? && !faulty && Accepts(w, old(fs), source).Some? ==>
        var b := Accepts(w, old(fs), source).value;
        fs == if Present(old(fs), BundleDir(root, b.version)) then old(fs) else Leftover(old(fs), root, source, b)
    {
      hide Ready, Advance, Completed, VersionShaped, Leftover, Acceptable;
      AcceptsIff(w, fs, source);
      outcome, effect, staged, faulty := Refused, Untouched, fs, false;
      var accepted := Accepts(w, fs, source);
      if accepted.None? { return; }
      AcceptedIsAdmitted(w, fs, source);
      hide Accepts;
      var b := accepted.value;
      var idempotent := Present(fs, BundleDir(root, b.version));
      var ok: bool;
      ok, effect, staged := PublishAccepted(source, b);
      if ok { outcome := Done(b, idempotent); }
    }
  }

  lemma {:induction false} CopiedStops(fs: Files, source: Path, dest: Path, rels: seq<string>, i: nat)
    requires i <= |rels|
    ensures Copied(fs, source, dest, rels[..i]).None? ==> Copied(fs, source, dest, rels).None?
    decreases |rels| - i
  {
    hide Resolve, Under;
    if i == |rels| {
      assert rels[..i] == rels;
    } else {
      assert rels[..i + 1][..i] == rels[..i];
      CopiedStops(fs, source, dest, rels, i + 1);
    }
  }

  lemma FarIsAll(fs: Files, source: Path, dest: Path, rels: seq<string>)
    requires Copied(fs, source, dest, rels).Some?
    ensures CopiedFar(fs, source, dest, rels) == Copied(fs, source, dest, rels).value
  {
  }

  /** Copying that stops at the file `i` gets no further with more files. */
  lemma {:induction false} FarStops(fs: Files, source: Path, dest: Path, rels: seq<string>, i: nat, n: nat)
    requires i < n <= |rels|
    requires Copied(fs, source, dest, rels[..i]).Some? && Copied(fs, source, dest, rels[..i + 1]).None?
    ensures CopiedFar(fs, source, dest, rels[..n]) == Copied(fs, source, dest, rels[..i]).value
    decreases n
  {
    hide Copied;
    assert rels[..n][..n - 1] == rels[..n - 1];
    assert rels[..n][..i + 1] == rels[..i + 1];
    CopiedStops(fs, source, dest, rels[..n], i + 1);
    if n > i + 1 { FarStops(fs, source, dest, rels, i, n - 1); }
  }

  lemma NothingToRemove(fs: Files, dir: Path)
    ensures !Present(fs, dir) ==> Without(fs, dir) == fs
    ensures !Present(Without(fs, dir), dir)
  {
  }

  lemma StagingApart(root: Path, v: string)
    requires VersionShaped(v)
    ensures !Under(StagingDir(root, v), BundleDir(root, v))
  {
    PlacesApart(root, v, v);
    assert Under(BundleDir(root, v), BundleDir(root, v));
  }

  lemma MineGrows(root: Path, source: Path, b: Bundle, s: Path, start: Files, empty: Files, now: Files)
    requires s == StagingDir(root, b.version) && empty == Without(start, s)
    requires forall q :: Reached(source, s, PublishedPaths(b.manifest), q) || SameAt(empty, now, q)
    ensures forall q :: Mine(root, source, b, Untouched, q) || SameAt(start, now, q)
  {
    forall q ensures Mine(root, source, b, Untouched, q) || SameAt(start, now, q) {
      assert Reached(source, s, PublishedPaths(b.manifest), q) || SameAt(empty, now, q);
    }
  }

  lemma MineMoved(root: Path, source: Path, b: Bundle, start: Files, staged: Files, now: Files)
    requires forall q :: Mine(root, source, b, Untouched, q) || SameAt(start, staged, q)
    requires forall q :: Under(StagingDir(root, b.version), q) || Under(BundleDir(root, b.version), q) || SameAt(staged, now, q)
    ensures forall q :: Mine(root, source, b, Placed, q) || SameAt(start, now, q)
  {
    forall q ensures Mine(root, source, b, Placed, q) || SameAt(start, now, q) {
      assert Mine(root, source, b, Untouched, q) || SameAt(start, staged, q);
      assert Under(StagingDir(root, b.version), q) || Under(BundleDir(root, b.version), q) || SameAt(staged, now, q);
    }
  }

  lemma MineCleared(root: Path, source: Path, b: Bundle, start: Files, staged: Files, now: Files)
    requires forall q :: Mine(root, source, b, Untouched, q) || SameAt(start, staged, q)
    requires forall q :: Under(StagingDir(root, b.version), q) || SameAt(staged, now, q)
    ensures forall q :: Mine(root, source, b, Untouched, q) || SameAt(start, now, q)
  {
    forall q ensures Mine(root, source, b, Untouched, q) || SameAt(start, now, q) {
      assert Mine(root, source, b, Untouched, q) || SameAt(start, staged, q);
      assert Under(StagingDir(root, b.version), q) || SameAt(staged, now, q);
    }
  }

  lemma StagesStageable(w: World, fs: Files, root: Path, source: Path, b: Bundle, staged: Files)
    requires StagesAs(w, fs, root, source, b, staged)
    ensures Stageable(w, fs, root, source, b)
  {
  }

  lemma PointerAside(root: Path, source: Path, b: Bundle, start: Files, renamed: Files, now: Files, effect: Effect, staged: Files)
    requires VersionShaped(b.version) && (effect.Torn? || effect.Pointed?)
    requires forall q :: Mine(root, source, b, Placed, q) || SameAt(start, renamed, q)
    requires forall q :: q == PointerAt(root) || SameAt(renamed, now, q)
    requires SameTree(staged, StagingDir(root, b.version), renamed, BundleDir(root, b.version))
    ensures SameTree(staged, StagingDir(root, b.version), now, BundleDir(root, b.version))
    ensures forall q :: Mine(root, source, b, effect, q) || SameAt(start, now, q)
  {
    var v := BundleDir(root, b.version);
    PlacesApart(root, b.version, b.version);
    forall q: Path ensures SameAt(renamed, now, v + q) {
      assert Under(v, v + q);
    }
    forall q ensures Mine(root, source, b, effect, q) || SameAt(start, now, q) {
      assert Mine(root, source, b, Placed, q) || SameAt(start, renamed, q);
      assert q == PointerAt(root) || SameAt(renamed, now, q);
    }
  }
}
