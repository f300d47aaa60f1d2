/** Installation records: who owns a managed file, and the migration of a record
    from its first to its second and third form. */
module Records {
  import opened Text
  import opened Paths
  import Sorting

  // --------------------------------------------------------------- ownership

  datatype Owner = Core | Cursor | Claude | Distribution | Project

  /** One test of the classification, an exact path or a leading part. */
  datatype Rule = Exactly(path: string, owner: Owner) | StartsWith(path: string, owner: Owner)

  function FirstMatch(rules: seq<Rule>, p: string): Option<Owner> {
    if rules == [] then None
    else if (if rules[0].Exactly? then p == rules[0].path else rules[0].path <= p) then Some(rules[0].owner)
    else FirstMatch(rules[1..], p)
  }

  const OWNERS: seq<Rule> := [
    StartsWith(".ai-team/runtime/governed_ai/adapters/cursor/", Cursor),
    StartsWith(".ai-team/runtime/governed_ai/adapters/claude_code/", Claude),
    StartsWith(".ai-team/runtime/governed_ai/", Core),
    Exactly(".ai-team/requirements.txt", Core),
    StartsWith(".cursor/", Cursor),
    StartsWith(".claude/", Claude),
    Exactly("tools/install.py", Distribution),
    StartsWith("tools/", Core),
    Exactly(".ai-team/framework-version.json", Distribution),
    Exactly(".ai-team/installation-record.json", Distribution),
    Exactly("AGENTS.md", Core),
    Exactly("README.md", Core),
    StartsWith("docs/product/", Core),
    StartsWith("docs/operator/", Core),
    StartsWith("src/", Core),
    StartsWith("adapters/cursor/", Cursor),
    StartsWith("adapters/claude_code/", Claude),
    StartsWith("scripts/ai-team/", Core),
    StartsWith("tests/fixtures/", Core),
    Exactly(".fabric/framework-version.json", Distribution),
    Exactly(".fabric/project-profile.yaml", Distribution),
    StartsWith(".fabric/logs/", Core),
    StartsWith("distribution/payload/.ai-team/constitution/", Core),
    StartsWith("distribution/payload/.ai-team/contracts/", Core),
    StartsWith("distribution/payload/.ai-team/schemas/", Core),
    StartsWith("distribution/payload/.ai-team/templates/", Core),
    Exactly("distribution/payload/.ai-team/migration-backups/.gitignore", Core),
    StartsWith("distribution/payload/seeds/", Distribution),
    StartsWith(".ai-team/constitution/", Core),
    StartsWith(".ai-team/contracts/", Core),
    StartsWith(".ai-team/schemas/", Core),
    StartsWith(".ai-team/templates/", Core),
    Exactly(".ai-team/migration-backups/.gitignore", Core),
    StartsWith(".ai-team/project-profile.yaml", Project),
    StartsWith(".ai-team/sources/", Project),
    StartsWith(".ai-team/work-units/", Project),
    StartsWith(".ai-team/state/", Project),
    StartsWith(".ai-team/decisions/", Project),
    StartsWith(".ai-team/events/", Project),
    StartsWith(".ai-team/evidence/", Project),
    StartsWith(".ai-team/findings/", Project),
    StartsWith(".ai-team/audits/", Project),
    StartsWith(".ai-team/releases/", Project),
    StartsWith(".ai-team/acceptance/", Project),
    StartsWith(".ai-team/human-feedback/", Project),
    StartsWith(".ai-team/notifications/", Project),
    StartsWith(".ai-team/authorizations/", Project),
    StartsWith(".ai-team/context-packages/", Project),
    StartsWith(".ai-team/logs/", Project),
    StartsWith(".ai-team/secrets/", Project),
    StartsWith(".ai-team/metrics/", Project),
    StartsWith(".ai-team/observations/", Project),
    StartsWith(".ai-team/retrospectives/", Project),
    StartsWith(".ai-team/reconciliation/", Project),
    StartsWith(".ai-team/catalog.yaml", Project),
    StartsWith(".ai-team/ensembles/", Project),
    StartsWith(".ai-team/member-link.json", Project),
    StartsWith(".ai-team/active-ensemble.yaml", Project),
    StartsWith(".ai-team/migration-backups/", Project)
  ]

  const MANAGED_FIRST: seq<Rule> := [
    Exactly(".ai-team/installation-record.json", Distribution),
    Exactly(".ai-team/requirements.txt", Core),
    StartsWith(".ai-team/runtime/governed_ai/adapters/cursor/", Cursor),
    StartsWith(".ai-team/runtime/governed_ai/adapters/claude_code/", Claude),
    StartsWith(".ai-team/runtime/governed_ai/", Core),
    StartsWith("docs/product/", Core),
    StartsWith("docs/operator/", Core),
    Exactly("README.md", Core),
    StartsWith("src/", Core),
    StartsWith("adapters/cursor/", Cursor),
    StartsWith("adapters/claude_code/", Claude),
    Exactly("requirements.txt", Core),
    StartsWith(".ai-team/contracts/", Core)
  ]

  function ClassifyOwner(path: string): Option<Owner> { FirstMatch(OWNERS, Normalize(path)) }

  /** The owner of a managed file; None when it raises, as for a project's files. */
  function ClassifyManagedFile(path: string): (r: Option<Owner>)
    ensures r != Some(Project)
  {
    var p := Normalize(path);
    var first := FirstMatch(MANAGED_FIRST, p);
    var owner := if first.Some? then first else ClassifyOwner(p);
    if owner == Some(Project) then None else owner
  }

  /** Rule `i` is the first that speaks of `p`. */
  ghost predicate Decides(rules: seq<Rule>, p: string, i: nat) {
    && i < |rules| && SpeaksOf(rules[i], p) && forall k :: 0 <= k < i ==> !SpeaksOf(rules[k], p)
  }

  predicate SpeaksOf(rule: Rule, p: string) {
    match rule
    case Exactly(path, _) => p == path
    case StartsWith(path, _) => |path| <= |p| && p[..|path|] == path
  }

  lemma RuleIs(rules: seq<Rule>, p: string)
    requires rules != []
    ensures FirstMatch(rules, p) == if SpeaksOf(rules[0], p) then Some(rules[0].owner) else FirstMatch(rules[1..], p)
  {
  }

  lemma {:induction false} FirstMatchIs(rules: seq<Rule>, p: string)
    ensures forall i: nat :: Decides(rules, p, i) ==> FirstMatch(rules, p) == Some(rules[i].owner)
    ensures FirstMatch(rules, p).None? <==> forall rule :: rule in rules ==> !SpeaksOf(rule, p)
  {
    if rules != [] {
      FirstMatchIs(rules[1..], p);
      assert rules == [rules[0]] + rules[1..];
      assert rules[0] in rules;
      RuleIs(rules, p);
      hide SpeaksOf;
      forall i: nat | Decides(rules, p, i) ensures FirstMatch(rules, p) == Some(rules[i].owner) {
        if i > 0 {
          assert rules[1..][i - 1] == rules[i];
          assert forall k :: 0 <= k < i - 1 ==> rules[1..][k] == rules[k + 1];
          assert Decides(rules[1..], p, i - 1);
        }
      }
    }
  }

  /** The owner of a managed file is that of the first rule that speaks of its
      normalized path, among those for managed files and then those for all; it has
      none if no rule does, or if that makes it the project's. */
  lemma ClassifyIs(path: string)
    ensures var p, owner := Normalize(path), ClassifyManagedFile(path);
      && (forall i: nat :: Decides(MANAGED_FIRST, p, i) ==>
            owner == if MANAGED_FIRST[i].owner == Project then None else Some(MANAGED_FIRST[i].owner))
      && ((forall rule :: rule in MANAGED_FIRST ==> !SpeaksOf(rule, p)) ==>
            && (forall i: nat :: Decides(OWNERS, Normalize(p), i) ==>
                  owner == if OWNERS[i].owner == Project then None else Some(OWNERS[i].owner))
            && ((forall rule :: rule in OWNERS ==> !SpeaksOf(rule, Normalize(p))) ==> owner == None))
  {
    hide Normalize, FirstMatch, MANAGED_FIRST, OWNERS, SpeaksOf;
    FirstMatchIs(MANAGED_FIRST, Normalize(path));
    FirstMatchIs(OWNERS, Normalize(Normalize(path)));
  }

  // ----------------------------------------------------------------- buckets

  datatype Buckets = Buckets(core: seq<string>, cursor: seq<string>, claude: seq<string>, distribution: seq<string>) {
    function Of(owner: Owner): seq<string> {
      match owner
      case Core => core
      case Cursor => cursor
      case Claude => claude
      case Distribution => distribution
      case Project => []
    }

    function Add(owner: Owner, p: string): Buckets {
      match owner
      case Core => this.(core := core + [p])
      case Cursor => this.(cursor := cursor + [p])
      case Claude => this.(claude := claude + [p])
      case Distribution => this.(distribution := distribution + [p])
      case Project => this
    }

    function Sorted(): Buckets {
      Buckets(Sorting.SortedSet(core), Sorting.SortedSet(cursor), Sorting.SortedSet(claude), Sorting.SortedSet(distribution))
    }
  }

  function Filled(paths: seq<string>): Option<Buckets> {
    if paths == [] then Some(Buckets([], [], [], []))
    else
      var before, p := Filled(paths[..|paths| - 1]), paths[|paths| - 1];
      var owner := ClassifyManagedFile(p);
      if before.None? || owner.None? then None else Some(before.value.Add(owner.value, Normalize(p)))
  }

  function Partitioned(paths: seq<string>): Option<Buckets> {
    var filled := Filled(paths);
    if filled.None? then None else Some(filled.value.Sorted())
  }

  method PartitionManagedFiles(paths: seq<string>) returns (r: Option<Buckets>)
    ensures r == Partitioned(paths)
  {
    hide Normalize, ClassifyManagedFile;
    var buckets := Buckets([], [], [], []);
    for i := 0 to |paths|
      invariant Filled(paths[..i]) == Some(buckets)
    {
      assert paths[..i + 1][..i] == paths[..i];
      FilledStops(paths, i + 1);
      var owner := ClassifyManagedFile(paths[i]);
      if owner.None? { return None; }
      buckets := buckets.Add(owner.value, Normalize(paths[i]));
    }
    assert paths[..|paths|] == paths;
    r := Some(buckets.Sorted());
  }

  lemma {:induction false} FilledStops(paths: seq<string>, i: nat)
    requires i <= |paths|
    ensures Filled(paths[..i]).None? ==> Filled(paths).None?
    decreases |paths| - i
  {
    hide Normalize, ClassifyManagedFile;
    if i == |paths| {
      assert paths[..i] == paths;
    } else {
      assert paths[..i + 1][..i] == paths[..i];
      FilledStops(paths, i + 1);
    }
  }

  /** Some listed path has this owner and normalizes to `x`. */
  ghost predicate Owned(paths: seq<string>, owner: Owner, x: string) {
    exists p :: p in paths && ClassifyManagedFile(p) == Some(owner) && Normalize(p) == x
  }

  /** A path lands in the bucket of its owner and in no other. */
  lemma {:induction false} BucketsHold(paths: seq<string>, owner: Owner, x: string)
    requires Filled(paths).Some?
    ensures x in Filled(paths).value.Of(owner) <==> Owned(paths, owner, x)
  {
    hide Normalize, ClassifyManagedFile;
    if paths != [] {
      var n := |paths| - 1;
      BucketsHold(paths[..n], owner, x);
      OwnedMore(paths[..n], paths, owner, x);
    }
  }

  lemma OwnedMore(init: seq<string>, paths: seq<string>, owner: Owner, x: string)
    requires paths != [] && init == paths[..|paths| - 1]
    ensures var p := paths[|paths| - 1];
      Owned(paths, owner, x) <==> Owned(init, owner, x) || (ClassifyManagedFile(p) == Some(owner) && Normalize(p) == x)
  {
    hide Normalize, ClassifyManagedFile;
    assert forall p :: p in paths <==> p in init || p == paths[|paths| - 1];
  }

  lemma {:induction false} FilledIff(paths: seq<string>)
    ensures Filled(paths).Some? <==> forall p :: p in paths ==> ClassifyManagedFile(p).Some?
  {
    hide Normalize, ClassifyManagedFile;
    if paths != [] {
      var n := |paths| - 1;
      FilledIff(paths[..n]);
      assert forall p :: p in paths <==> p in paths[..n] || p == paths[n];
    }
  }

  // ----------------------------------------------------------------- records

  datatype Entry = Plain(path: string) | Hashed(path: string, digest: string) | Foreign
  datatype Adapter = Adapter(id: string, files: seq<Entry>)

  /** The managed files of a record in its second and third form. */
  datatype Record = Record(core: seq<Entry>, distribution: seq<Entry>, adapters: seq<Adapter>)

  const LEGACY := ".ai-team/framework-version.json"
  const RECORD := ".ai-team/installation-record.json"

  /** `_paths_from_managed_entries`. */
  function PathsOf(entries: seq<Entry>): set<string> {
    set e | e in entries && !e.Foreign? :: Normalize(e.path)
  }

  function AdapterPaths(adapters: seq<Adapter>): set<string> {
    if adapters == [] then {} else AdapterPaths(adapters[..|adapters| - 1]) + PathsOf(adapters[|adapters| - 1].files)
  }

  function ManagedUnion(r: Record): set<string> {
    PathsOf(r.core) + PathsOf(r.distribution) + AdapterPaths(r.adapters)
  }

  method ManagedFilesUnion(r: Record) returns (files: set<string>)
    ensures files == ManagedUnion(r)
  {
    hide PathsOf;
    files := {};
    files := files + PathsOf(r.core);
    files := files + PathsOf(r.distribution);
    for i := 0 to |r.adapters|
      invariant files == PathsOf(r.core) + PathsOf(r.distribution) + AdapterPaths(r.adapters[..i])
    {
      assert r.adapters[..i + 1][..i] == r.adapters[..i];
      files := files + PathsOf(r.adapters[i].files);
    }
    assert r.adapters[..|r.adapters|] == r.adapters;
  }

  // ------------------------------------------------------------ first to second

  datatype Result<T> = Ok(value: T) | Unclassifiable | UnknownAdapter | Drift

  /** A first-form manifest's files, normalized, without the manifest itself. */
  function Managed(files: seq<string>): seq<string> {
    if files == [] then []
    else
      var before, q := Managed(files[..|files| - 1]), Normalize(files[|files| - 1]);
      if q == LEGACY then before else before + [q]
  }

  function Entries(paths: seq<string>): (r: seq<Entry>)
    ensures |r| == |paths| && forall i :: 0 <= i < |paths| ==> r[i] == Plain(paths[i])
  {
    seq(|paths|, i requires 0 <= i < |paths| => Plain(paths[i]))
  }

  function NormalizedList(paths: seq<string>): (r: seq<string>)
    ensures |r| == |paths| && forall i :: 0 <= i < |paths| ==> r[i] == Normalize(paths[i])
  {
    seq(|paths|, i requires 0 <= i < |paths| => Normalize(paths[i]))
  }

  function Without(paths: seq<string>, x: string): seq<string> {
    if paths == [] then []
    else if paths[0] == x then Without(paths[1..], x)
    else [paths[0]] + Without(paths[1..], x)
  }

  /** The distribution's files: the record in, the legacy manifest out. */
  function FinalDistribution(paths: seq<string>): seq<string> {
    Sorting.SortedSet(Without(NormalizedList(paths), LEGACY) + [RECORD])
  }

  function BuildV2(files: seq<string>, active: string): Result<Record> {
    match Partitioned(Managed(files))
    case None => Unclassifiable
    case Some(b) =>
      if active != "cursor" then UnknownAdapter
      else Ok(Record(Entries(b.core), Entries(FinalDistribution(b.distribution)), [Adapter("cursor", Entries(b.cursor))]))
  }

  function Original(files: seq<string>): set<string> {
    set p | p in files && Normalize(p) != LEGACY :: Normalize(p)
  }

  /** Building, and the check that no managed file was lost or invented. */
  function MigrateV1(files: seq<string>, active: string): Result<Record> {
    match BuildV2(files, active)
    case Ok(r) => if Original(files) == ManagedUnion(r) - {RECORD} then Ok(r) else Drift
    case failed => failed
  }

  lemma {:induction false} ManagedIsOriginal(files: seq<string>)
    ensures forall q :: q in Managed(files) <==> q in Original(files)
  {
    hide Normalize;
    if files != [] {
      var n := |files| - 1;
      ManagedIsOriginal(files[..n]);
      assert forall p :: p in files <==> p in files[..n] || p == files[n];
    }
  }

  lemma EntriesPaths(paths: seq<string>, x: string)
    ensures x in PathsOf(Entries(paths)) <==> exists p :: p in paths && Normalize(p) == x
  {
    hide Normalize;
    var entries := Entries(paths);
    if x in PathsOf(entries) {
      var e :| e in entries && !e.Foreign? && Normalize(e.path) == x;
      assert e.path in paths;
    }
    if p :| p in paths && Normalize(p) == x {
      var i :| 0 <= i < |paths| && paths[i] == p;
      assert entries[i] == Plain(p) && entries[i] in entries;
    }
  }

  lemma {:induction false} WithoutHas(paths: seq<string>, x: string)
    ensures forall y :: y in Without(paths, x) <==> y in paths && y != x
  {
    if paths != [] {
      WithoutHas(paths[1..], x);
      assert paths == [paths[0]] + paths[1..];
    }
  }

  lemma FinalHas(paths: seq<string>, y: string)
    ensures y in FinalDistribution(paths) <==> y == RECORD || (y != LEGACY && exists p :: p in paths && Normalize(p) == y)
  {
    hide Normalize;
    var list := NormalizedList(paths);
    WithoutHas(list, LEGACY);
    Sorting.SortedSetSorts(Without(list, LEGACY) + [RECORD]);
    hide Sorting.SortedSet;
    if p :| p in paths && Normalize(p) == y {
      var i :| 0 <= i < |paths| && paths[i] == p;
      assert list[i] in list;
    }
  }

  /** Where a normalized managed path ends up: buckets, the distribution's list and
      the union each normalize once more. */
  predicate Leads(q: string, owner: Owner, x: string) {
    match owner
    case Core => Normalize(Normalize(q)) == x
    case Cursor => Normalize(Normalize(q)) == x
    case Distribution => Normalize(Normalize(q)) != LEGACY && Normalize(Normalize(Normalize(q))) == x
    case Claude => false
    case Project => false
  }

  ghost predicate LedTo(files: seq<string>, x: string) {
    exists q, owner :: q in Original(files) && ClassifyManagedFile(q) == Some(owner) && Leads(q, owner, x)
  }

  lemma RecordText()
    ensures |RECORD| > 1 && RECORD[0] == '.' && RECORD[1] == 'a' && '\\' !in RECORD
    ensures RECORD != LEGACY
  {
    assert RECORD[9] == 'i' && LEGACY[9] == 'f';
  }

  lemma RecordStable()
    ensures Normalize(RECORD) == RECORD && RECORD != LEGACY
  {
    RecordText();
    hide RECORD, LEGACY, Normalize;
    StableStart(RECORD, "", RECORD + "");
    assert RECORD + "" == RECORD;
  }

  lemma InSorted(paths: seq<string>)
    ensures forall x :: x in Sorting.SortedSet(paths) <==> x in paths
  {
    Sorting.SortedSetSorts(paths);
  }

  /** The managed set of a second-form record: the record file, and what the
      first form's paths lead to. */
  lemma UnionMeans(files: seq<string>, active: string, x: string)
    requires BuildV2(files, active).Ok?
    ensures x in ManagedUnion(BuildV2(files, active).value) <==> x == RECORD || LedTo(files, x)
  {
    hide Normalize, ClassifyManagedFile, Original, Managed, Filled, FinalDistribution, Entries, PathsOf, LEGACY, RECORD, Leads;
    var r := BuildV2(files, active).value;
    var filled := Filled(Managed(files)).value;
    var b := filled.Sorted();
    hide Sorting.SortedSet;
    assert r.adapters[..0] == [];
    assert AdapterPaths(r.adapters) == {} + PathsOf(r.adapters[0].files);
    CoreLeads(files, filled.core, x);
    CursorLeads(files, filled.cursor, x);
    DistributionLeads(files, filled.distribution, x);
    if LedTo(files, x) {
      var q, owner :| q in Original(files) && ClassifyManagedFile(q) == Some(owner) && Leads(q, owner, x);
      LeadsByOwner(q, owner, x);
    }
    assert PathsOf(r.core) == PathsOf(Entries(Sorting.SortedSet(filled.core)));
    assert PathsOf(r.adapters[0].files) == PathsOf(Entries(Sorting.SortedSet(filled.cursor)));
    assert PathsOf(r.distribution) == PathsOf(Entries(FinalDistribution(Sorting.SortedSet(filled.distribution))));
  }

  lemma LeadsByOwner(q: string, owner: Owner, x: string)
    requires Leads(q, owner, x)
    ensures owner == Core || owner == Cursor || owner == Distribution
  {
  }

  ghost predicate OwnedLeads(files: seq<string>, owner: Owner, x: string) {
    exists q :: q in Original(files) && ClassifyManagedFile(q) == Some(owner) && Leads(q, owner, x)
  }

  lemma OwnedLedTo(files: seq<string>, owner: Owner, x: string)
    requires OwnedLeads(files, owner, x)
    ensures LedTo(files, x)
  {
    hide Original, ClassifyManagedFile, Leads;
  }

  /** One bucket, sorted and written as entries. */
  lemma BucketLeads(files: seq<string>, owner: Owner, bucket: seq<string>, x: string)
    requires Filled(Managed(files)).Some? && bucket == Filled(Managed(files)).value.Of(owner)
    ensures x in PathsOf(Entries(Sorting.SortedSet(bucket))) <==>
      exists q :: q in Original(files) && ClassifyManagedFile(q) == Some(owner) && Normalize(Normalize(q)) == x
  {
    hide Normalize, ClassifyManagedFile, Original, Managed, Filled, Entries, PathsOf, Sorting.SortedSet;
    EntriesPaths(Sorting.SortedSet(bucket), x);
    InSorted(bucket);
    ManagedIsOriginal(files);
    if p :| p in bucket && Normalize(p) == x {
      BucketsHold(Managed(files), owner, p);
      var q :| q in Managed(files) && ClassifyManagedFile(q) == Some(owner) && Normalize(q) == p;
      assert q in Original(files);
    }
    if q :| q in Original(files) && ClassifyManagedFile(q) == Some(owner) && Normalize(Normalize(q)) == x {
      assert q in Managed(files);
      assert Owned(Managed(files), owner, Normalize(q));
      BucketsHold(Managed(files), owner, Normalize(q));
    }
  }

  lemma CoreLeads(files: seq<string>, bucket: seq<string>, x: string)
    requires Filled(Managed(files)).Some? && bucket == Filled(Managed(files)).value.core
    ensures x in PathsOf(Entries(Sorting.SortedSet(bucket))) <==> OwnedLeads(files, Core, x)
    ensures OwnedLeads(files, Core, x) ==> LedTo(files, x)
  {
    hide Normalize, ClassifyManagedFile, Original, Managed, Filled, Entries, PathsOf, LedTo;
    BucketLeads(files, Core, bucket, x);
    if OwnedLeads(files, Core, x) { OwnedLedTo(files, Core, x); }
  }

  lemma CursorLeads(files: seq<string>, bucket: seq<string>, x: string)
    requires Filled(Managed(files)).Some? && bucket == Filled(Managed(files)).value.cursor
    ensures x in PathsOf(Entries(Sorting.SortedSet(bucket))) <==> OwnedLeads(files, Cursor, x)
    ensures OwnedLeads(files, Cursor, x) ==> LedTo(files, x)
  {
    hide Normalize, ClassifyManagedFile, Original, Managed, Filled, Entries, PathsOf, LedTo;
    BucketLeads(files, Cursor, bucket, x);
    if OwnedLeads(files, Cursor, x) { OwnedLedTo(files, Cursor, x); }
  }

  lemma DistributionLeads(files: seq<string>, bucket: seq<string>, x: string)
    requires Filled(Managed(files)).Some? && bucket == Filled(Managed(files)).value.distribution
    ensures x in PathsOf(Entries(FinalDistribution(Sorting.SortedSet(bucket)))) <==> x == RECORD || OwnedLeads(files, Distribution, x)
    ensures OwnedLeads(files, Distribution, x) ==> LedTo(files, x)
  {
    hide Normalize, ClassifyManagedFile, Original, Managed, Filled, Entries, PathsOf, LedTo, FinalDistribution, LEGACY, RECORD, Sorting.SortedSet;
    var sorted := Sorting.SortedSet(bucket);
    RecordStable();
    EntriesPaths(FinalDistribution(sorted), x);
    InSorted(bucket);
    ManagedIsOriginal(files);
    if y :| y in FinalDistribution(sorted) && Normalize(y) == x {
      FinalHas(sorted, y);
      if y != RECORD {
        var p :| p in sorted && Normalize(p) == y;
        BucketsHold(Managed(files), Distribution, p);
        var q :| q in Managed(files) && ClassifyManagedFile(q) == Some(Distribution) && Normalize(q) == p;
        assert q in Original(files) && Leads(q, Distribution, x);
      }
    }
    if x == RECORD {
      FinalHas(sorted, RECORD);
    }
    if OwnedLeads(files, Distribution, x) {
      OwnedLedTo(files, Distribution, x);
      var q :| q in Original(files) && ClassifyManagedFile(q) == Some(Distribution) && Leads(q, Distribution, x);
      assert q in Managed(files);
      assert Owned(Managed(files), Distribution, Normalize(q));
      BucketsHold(Managed(files), Distribution, Normalize(q));
      FinalHas(sorted, Normalize(Normalize(q)));
    }
  }

  // ------------------------------------------------------ when it succeeds

  /** Normalized, classifiable, not the other adapter's, and not the record itself. */
  ghost predicate Movable(q: string) {
    Stable(q) && q != RECORD && ClassifyManagedFile(q).Some? && ClassifyManagedFile(q) != Some(Claude)
  }

  lemma Shrinks(p: string)
    ensures |Normalize(p)| <= |p| && '\\' !in Normalize(p)
    ensures '\\' !in p && !Stable(p) ==> |Normalize(p)| < |p|
  {
    if '\\' !in p { NormalizeAgain(p); }
  }

  lemma {:induction false} Longest(paths: set<string>) returns (p: string)
    requires paths != {}
    ensures p in paths && forall q :: q in paths ==> |q| <= |p|
    decreases |paths|
  {
    p :| p in paths;
    var rest := paths - {p};
    if rest != {} {
      var q := Longest(rest);
      assert forall x :: x in paths ==> x == p || x in rest;
      if |q| > |p| { p := q; }
    }
  }

  lemma LeadsShorter(q: string, owner: Owner, x: string)
    requires Leads(q, owner, x) && '\\' !in q
    ensures Stable(q) ==> x == q
    ensures !Stable(q) ==> |x| < |q|
  {
    var a := Normalize(q);
    var b := Normalize(a);
    Shrinks(q);
    Shrinks(a);
    Shrinks(b);
    hide Normalize;
  }

  lemma OriginalPlain(files: seq<string>, q: string)
    requires q in Original(files)
    ensures '\\' !in q && q != LEGACY
  {
  }

  lemma LongestNotReached(files: seq<string>, x: string)
    requires !Stable(x) && forall y :: y in Original(files) && !Stable(y) ==> |y| <= |x|
    ensures !LedTo(files, x)
  {
    hide Stable, Normalize, ClassifyManagedFile, Original, Leads;
    if q, owner :| q in Original(files) && ClassifyManagedFile(q) == Some(owner) && Leads(q, owner, x) {
      OriginalPlain(files, q);
      LeadsShorter(q, owner, x);
    }
  }

  /** If every path is reached, none is unstable: the longest unstable one could
      only come from a longer. */
  lemma ReachedAreStable(files: seq<string>)
    requires forall x :: x in Original(files) ==> LedTo(files, x)
    ensures forall x :: x in Original(files) ==> Stable(x)
  {
    hide Stable, Normalize, ClassifyManagedFile, Original, Leads;
    var unstable := set x | x in Original(files) && !Stable(x);
    if unstable != {} {
      var x := Longest(unstable);
      assert forall y :: y in Original(files) && !Stable(y) ==> y in unstable;
      LongestNotReached(files, x);
    }
    forall x | x in Original(files) ensures Stable(x) {
      assert x !in unstable;
    }
  }

  /** A stable path leads to itself, unless it is the other adapter's. */
  lemma StableLeads(q: string, owner: Owner, x: string)
    requires Stable(q) && q != LEGACY
    ensures Leads(q, owner, x) <==> x == q && owner != Claude && owner != Project
  {
    hide Normalize;
  }

  lemma BuildsIff(files: seq<string>, active: string)
    ensures BuildV2(files, active).Ok? <==>
      active == "cursor" && forall q :: q in Original(files) ==> ClassifyManagedFile(q).Some?
  {
    hide Normalize, ClassifyManagedFile, Filled, Original, Managed, FinalDistribution, Sorting.SortedSet;
    FilledIff(Managed(files));
    ManagedIsOriginal(files);
  }

  /** The migration succeeds exactly when the active adapter is cursor and every
      managed path but the old manifest is normalized for good, has an owner other
      than claude-code, and is not the record file. It then loses nothing: the
      managed set is the old one with the record in place of the manifest. */
  lemma MigratesIff(files: seq<string>, active: string)
    ensures MigrateV1(files, active).Ok? <==> active == "cursor" && forall q :: q in Original(files) ==> Movable(q)
    ensures MigrateV1(files, active).Ok? ==> ManagedUnion(MigrateV1(files, active).value) == Original(files) + {RECORD}
  {
    hide Normalize, ClassifyManagedFile, BuildV2, Original, ManagedUnion, Movable, LEGACY, RECORD;
    BuildsIff(files, active);
    MovableParts(files);
    if BuildV2(files, active).Ok? {
      var union := ManagedUnion(BuildV2(files, active).value);
      forall x ensures x in union <==> x == RECORD || LedTo(files, x) {
        UnionMeans(files, active, x);
      }
      if forall q :: q in Original(files) ==> Movable(q) {
        MovableUnion(files, union);
      }
      if Original(files) == union - {RECORD} {
        DriftFree(files, union);
      }
    }
  }

  lemma MovableParts(files: seq<string>)
    ensures (forall q :: q in Original(files) ==> Movable(q)) ==> forall q :: q in Original(files) ==> ClassifyManagedFile(q).Some?
  {
    hide ClassifyManagedFile, Original;
  }

  lemma MovableUnion(files: seq<string>, union: set<string>)
    requires forall q :: q in Original(files) ==> Movable(q)
    requires forall x :: x in union <==> x == RECORD || LedTo(files, x)
    ensures Original(files) == union - {RECORD} && union == Original(files) + {RECORD}
  {
    hide Stable, ClassifyManagedFile, Original, Leads, LEGACY, RECORD;
    forall x ensures LedTo(files, x) <==> x in Original(files) {
      if x in Original(files) {
        assert Movable(x);
        OriginalPlain(files, x);
        var owner := ClassifyManagedFile(x).value;
        NotProject(x);
        StableLeads(x, owner, x);
        assert Leads(x, owner, x);
      }
      if LedTo(files, x) {
        var q, owner :| q in Original(files) && ClassifyManagedFile(q) == Some(owner) && Leads(q, owner, x);
        assert Movable(q);
        OriginalPlain(files, q);
        StableLeads(q, owner, x);
      }
    }
    forall q | q in Original(files) ensures q != RECORD {
      assert Movable(q);
    }
  }

  lemma NotProject(q: string)
    ensures ClassifyManagedFile(q) != Some(Project)
  {
    hide FirstMatch, Normalize;
  }

  lemma DriftFree(files: seq<string>, union: set<string>)
    requires forall x :: x in union <==> x == RECORD || LedTo(files, x)
    requires Original(files) == union - {RECORD}
    requires forall q :: q in Original(files) ==> ClassifyManagedFile(q).Some?
    ensures forall q :: q in Original(files) ==> Movable(q)
    ensures union == Original(files) + {RECORD}
  {
    hide Stable, ClassifyManagedFile, Original, Leads, LEGACY, RECORD;
    ReachedAreStable(files);
    assert RECORD in union;
    forall x | x in Original(files) ensures Movable(x) {
      assert x in union && x != RECORD && LedTo(files, x);
      var q, owner :| q in Original(files) && ClassifyManagedFile(q) == Some(owner) && Leads(q, owner, x);
      OriginalPlain(files, q);
      StableLeads(q, owner, x);
    }
  }

  // ------------------------------------------------------------ second to third

  /** `sorted(result, key=path)`, keeping the order of equal paths. */
  function InsertEntry(e: Entry, es: seq<Entry>): (r: seq<Entry>)
    requires !e.Foreign? && forall x :: x in es ==> !x.Foreign?
    ensures forall x :: x in r <==> x == e || x in es
  {
    if es == [] then [e]
    else
      assert es == [es[0]] + es[1..] && es[0] in es;
      if Sorting.Below(e.path, es[0].path) then [e] + es else [es[0]] + InsertEntry(e, es[1..])
  }

  /** Every entry that has a path, with the digest of its file, by path. */
  function EntriesFrom(entries: seq<Entry>, digest: string -> string): (r: seq<Entry>)
    ensures forall x :: x in r ==> x.Hashed?
  {
    if entries == [] then []
    else
      var before, e := EntriesFrom(entries[..|entries| - 1], digest), entries[|entries| - 1];
      if e.Foreign? then before else InsertEntry(Hashed(Normalize(e.path), digest(Normalize(e.path))), before)
  }

  function AdaptersFrom(adapters: seq<Adapter>, digest: string -> string): seq<Adapter> {
    if adapters == [] then []
    else
      var n := |adapters| - 1;
      AdaptersFrom(adapters[..n], digest) + [Adapter(adapters[n].id, EntriesFrom(adapters[n].files, digest))]
  }

  function V3From(r: Record, digest: string -> string): Record {
    Record(EntriesFrom(r.core, digest), EntriesFrom(r.distribution, digest), AdaptersFrom(r.adapters, digest))
  }

  /** By path. */
  ghost predicate InOrder(es: seq<Entry>) {
    forall i, j :: 0 <= i < j < |es| ==> !es[i].Foreign? && !es[j].Foreign? && !Sorting.Below(es[j].path, es[i].path)
  }

  lemma {:induction false} InsertAddsOne(e: Entry, es: seq<Entry>)
    requires !e.Foreign? && forall x :: x in es ==> !x.Foreign?
    ensures multiset(InsertEntry(e, es)) == multiset(es) + multiset{e}
  {
    hide Sorting.Below;
    if es != [] {
      assert es == [es[0]] + es[1..];
      InsertAddsOne(e, es[1..]);
    }
  }

  lemma {:induction false} InsertKeepsOrder(e: Entry, es: seq<Entry>)
    requires !e.Foreign? && (forall x :: x in es ==> !x.Foreign?) && InOrder(es)
    ensures InOrder(InsertEntry(e, es))
  {
    hide Sorting.Below;
    if es != [] {
      assert es == [es[0]] + es[1..];
      if Sorting.Below(e.path, es[0].path) {
        forall k | 0 <= k < |es| ensures !Sorting.Below(es[k].path, e.path) {
          Sorting.BelowOrders(es[k].path, e.path, es[0].path);
          Sorting.BelowOrders(es[0].path, es[0].path, e.path);
          assert k > 0 ==> !Sorting.Below(es[k].path, es[0].path);
        }
        InFront(e, es);
      } else {
        InsertKeepsOrder(e, es[1..]);
        forall x | x in InsertEntry(e, es[1..]) ensures !Sorting.Below(x.path, es[0].path) {
          if x in es[1..] {
            var m :| 0 <= m < |es[1..]| && es[1..][m] == x;
            assert es[m + 1] == x;
          }
        }
        InFront(es[0], InsertEntry(e, es[1..]));
      }
    }
  }

  lemma InFront(e: Entry, es: seq<Entry>)
    requires !e.Foreign? && InOrder(es) && forall x :: x in es ==> !x.Foreign? && !Sorting.Below(x.path, e.path)
    ensures InOrder([e] + es)
  {
    hide Sorting.Below;
    var r := [e] + es;
    forall i, j | 0 <= i < j < |r| ensures !r[i].Foreign? && !r[j].Foreign? && !Sorting.Below(r[j].path, r[i].path) {
      assert r[j] == es[j - 1] && es[j - 1] in es;
      if i > 0 { assert r[i] == es[i - 1]; }
    }
  }

  /** The entries that have a path, hashed, as they come. */
  function HashedOnes(entries: seq<Entry>, digest: string -> string): seq<Entry> {
    if entries == [] then []
    else
      var before, e := HashedOnes(entries[..|entries| - 1], digest), entries[|entries| - 1];
      if e.Foreign? then before else before + [Hashed(Normalize(e.path), digest(Normalize(e.path)))]
  }

  /** A section's entries come out by path, each as often as it went in. */
  lemma {:induction false} EntriesAreSorted(entries: seq<Entry>, digest: string -> string)
    ensures InOrder(EntriesFrom(entries, digest))
    ensures multiset(EntriesFrom(entries, digest)) == multiset(HashedOnes(entries, digest))
  {
    hide Normalize, InsertEntry;
    if entries != [] {
      var n := |entries| - 1;
      EntriesAreSorted(entries[..n], digest);
      if !entries[n].Foreign? {
        var path := Normalize(entries[n].path);
        InsertKeepsOrder(Hashed(path, digest(path)), EntriesFrom(entries[..n], digest));
        InsertAddsOne(Hashed(path, digest(path)), EntriesFrom(entries[..n], digest));
      }
    }
  }

  method EntriesFromSection(entries: seq<Entry>, digest: string -> string) returns (result: seq<Entry>)
    ensures result == EntriesFrom(entries, digest)
  {
    hide Normalize, InsertEntry;
    result := [];
    for i := 0 to |entries|
      invariant result == EntriesFrom(entries[..i], digest)
    {
      assert entries[..i + 1][..i] == entries[..i];
      if entries[i].Foreign? { continue; }
      var path := Normalize(entries[i].path);
      result := InsertEntry(Hashed(path, digest(path)), result);
    }
    assert entries[..|entries|] == entries;
  }

  method BuildV3Record(r: Record, digest: string -> string) returns (v3: Record)
    ensures v3 == V3From(r, digest)
  {
    hide EntriesFrom;
    var core := EntriesFromSection(r.core, digest);
    var distribution := EntriesFromSection(r.distribution, digest);
    var adapters := [];
    for i := 0 to |r.adapters|
      invariant adapters == AdaptersFrom(r.adapters[..i], digest)
    {
      assert r.adapters[..i + 1][..i] == r.adapters[..i];
      var files := EntriesFromSection(r.adapters[i].files, digest);
      adapters := adapters + [Adapter(r.adapters[i].id, files)];
    }
    assert r.adapters[..|r.adapters|] == r.adapters;
    v3 := Record(core, distribution, adapters);
  }

  /** The digests of a section, later entries winning. */
  function HashesOf(entries: seq<Entry>, before: map<string, string>): map<string, string> {
    if entries == [] then before
    else
      var hashes, e := HashesOf(entries[..|entries| - 1], before), entries[|entries| - 1];
      if e.Hashed? then hashes[Normalize(e.path) := e.digest] else hashes
  }

  function Sections(r: Record): seq<seq<Entry>> {
    [r.core, r.distribution] + AdapterSections(r.adapters)
  }

  function AdapterSections(adapters: seq<Adapter>): seq<seq<Entry>> {
    if adapters == [] then []
    else AdapterSections(adapters[..|adapters| - 1]) + [adapters[|adapters| - 1].files]
  }

  function AllHashes(sections: seq<seq<Entry>>): map<string, string> {
    if sections == [] then map[]
    else HashesOf(sections[|sections| - 1], AllHashes(sections[..|sections| - 1]))
  }

  /** `managed_file_hashes` of a third-form record. */
  method ManagedFileHashes(r: Record) returns (result: map<string, string>)
    ensures result == AllHashes(Sections(r))
  {
    hide Normalize;
    var sections := [r.core, r.distribution];
    for i := 0 to |r.adapters|
      invariant sections == [r.core, r.distribution] + AdapterSections(r.adapters[..i])
    {
      assert r.adapters[..i + 1][..i] == r.adapters[..i];
      sections := sections + [r.adapters[i].files];
    }
    assert r.adapters[..|r.adapters|] == r.adapters;
    result := map[];
    for i := 0 to |sections|
      invariant result == AllHashes(sections[..i])
    {
      assert sections[..i + 1][..i] == sections[..i];
      ghost var before := result;
      for j := 0 to |sections[i]|
        invariant result == HashesOf(sections[i][..j], before)
      {
        assert sections[i][..j + 1][..j] == sections[i][..j];
        var e := sections[i][j];
        if e.Hashed? { result := result[Normalize(e.path) := e.digest]; }
      }
      assert sections[i][..|sections[i]|] == sections[i];
    }
    assert sections[..|sections|] == sections;
  }

  /** Paths of the second form normalize for good. */
  ghost predicate StablePaths(entries: seq<Entry>) {
    forall e :: e in entries && !e.Foreign? ==> Stable(Normalize(e.path))
  }

  /** A hashed section: all its entries carry their own path's digest. */
  ghost predicate Digested(entries: seq<Entry>, digest: string -> string) {
    forall e :: e in entries ==> e.Hashed? && Stable(e.path) && e.digest == digest(e.path)
  }

  lemma {:induction false} EntriesKeep(entries: seq<Entry>, digest: string -> string)
    requires StablePaths(entries)
    ensures PathsOf(EntriesFrom(entries, digest)) == PathsOf(entries)
    ensures Digested(EntriesFrom(entries, digest), digest)
  {
    if entries == [] {
    } else {
      var n := |entries| - 1;
      assert entries == entries[..n] + [entries[n]];
      EntriesKeep(entries[..n], digest);
      EntriesKeepOne(entries, digest);
    }
  }

  lemma EntriesKeepOne(entries: seq<Entry>, digest: string -> string)
    requires entries != [] && StablePaths(entries)
    requires var init := entries[..|entries| - 1];
      PathsOf(EntriesFrom(init, digest)) == PathsOf(init) && Digested(EntriesFrom(init, digest), digest)
    ensures PathsOf(EntriesFrom(entries, digest)) == PathsOf(entries)
    ensures Digested(EntriesFrom(entries, digest), digest)
  {
    hide Normalize, InsertEntry;
    var init, e := entries[..|entries| - 1], entries[|entries| - 1];
    assert forall x :: x in entries <==> x in init || x == e;
    var before, now := EntriesFrom(init, digest), EntriesFrom(entries, digest);
    if !e.Foreign? {
      var h := Hashed(Normalize(e.path), digest(Normalize(e.path)));
      assert forall x :: x in now <==> x == h || x in before;
      PathsMore(before, h, now);
      PathsMore(init, e, entries);
    } else {
      forall x ensures x in PathsOf(entries) <==> x in PathsOf(init) {
      }
    }
  }

  lemma PathsMore(before: seq<Entry>, e: Entry, now: seq<Entry>)
    requires !e.Foreign? && forall x :: x in now <==> x == e || x in before
    ensures PathsOf(now) == PathsOf(before) + {Normalize(e.path)}
  {
    hide Normalize;
    assert e in now;
  }

  lemma {:induction false} AdaptersKeep(adapters: seq<Adapter>, digest: string -> string)
    requires forall a :: a in adapters ==> StablePaths(a.files)
    ensures AdapterPaths(AdaptersFrom(adapters, digest)) == AdapterPaths(adapters)
    ensures forall s :: s in AdapterSections(AdaptersFrom(adapters, digest)) ==> Digested(s, digest)
  {
    hide PathsOf, Digested, StablePaths;
    if adapters != [] {
      var n := |adapters| - 1;
      AdaptersKeep(adapters[..n], digest);
      assert adapters[n] in adapters;
      EntriesKeep(adapters[n].files, digest);
      var before := AdaptersFrom(adapters[..n], digest);
      assert (before + [Adapter(adapters[n].id, EntriesFrom(adapters[n].files, digest))])[..n] == before by {
        AdaptersLength(adapters[..n], digest);
      }
      AdaptersLength(adapters, digest);
    }
  }

  lemma {:induction false} AdaptersLength(adapters: seq<Adapter>, digest: string -> string)
    ensures |AdaptersFrom(adapters, digest)| == |adapters|
  {
    if adapters != [] { AdaptersLength(adapters[..|adapters| - 1], digest); }
  }

  lemma {:induction false} HashesKeep(entries: seq<Entry>, before: map<string, string>, digest: string -> string)
    requires Digested(entries, digest) && forall p :: p in before ==> before[p] == digest(p)
    ensures var hashes := HashesOf(entries, before);
      hashes.Keys == before.Keys + PathsOf(entries) && forall p :: p in hashes ==> hashes[p] == digest(p)
  {
    if entries != [] {
      hide Normalize;
      var n := |entries| - 1;
      assert forall x :: x in entries <==> x in entries[..n] || x == entries[n];
      HashesKeep(entries[..n], before, digest);
      PathsMore(entries[..n], entries[n], entries);
    }
  }

  function SectionPaths(sections: seq<seq<Entry>>): set<string> {
    if sections == [] then {} else SectionPaths(sections[..|sections| - 1]) + PathsOf(sections[|sections| - 1])
  }

  lemma {:induction false} AllHashesKeep(sections: seq<seq<Entry>>, digest: string -> string)
    requires forall s :: s in sections ==> Digested(s, digest)
    ensures AllHashes(sections).Keys == SectionPaths(sections)
    ensures forall p :: p in AllHashes(sections) ==> AllHashes(sections)[p] == digest(p)
  {
    hide PathsOf, Digested, HashesOf;
    if sections != [] {
      var n := |sections| - 1;
      AllHashesKeep(sections[..n], digest);
      HashesKeep(sections[n], AllHashes(sections[..n]), digest);
    }
  }

  lemma {:induction false} AdapterSectionPaths(head: seq<seq<Entry>>, adapters: seq<Adapter>)
    ensures SectionPaths(head + AdapterSections(adapters)) == SectionPaths(head) + AdapterPaths(adapters)
  {
    hide PathsOf;
    if adapters == [] {
      assert head + AdapterSections(adapters) == head;
    } else {
      var n := |adapters| - 1;
      AdapterSectionPaths(head, adapters[..n]);
      var all, before := head + AdapterSections(adapters), head + AdapterSections(adapters[..n]);
      assert all == before + [adapters[n].files];
      assert all[..|all| - 1] == before;
    }
  }

  lemma SectionsAreAll(r: Record)
    ensures SectionPaths(Sections(r)) == ManagedUnion(r)
  {
    hide PathsOf, AdapterPaths;
    var head := [r.core, r.distribution];
    assert head[..1] == [r.core] && head[..1][..0] == [];
    assert SectionPaths([]) == {} && SectionPaths(head[..1]) == PathsOf(r.core);
    assert SectionPaths(head) == PathsOf(r.core) + PathsOf(r.distribution);
    AdapterSectionPaths(head, r.adapters);
  }

  /** The third form manages the same paths, and has a hash for each of them: the
      digest of the file at that path. */
  lemma ThirdFormKeeps(r: Record, digest: string -> string)
    requires StablePaths(r.core) && StablePaths(r.distribution)
    requires forall a :: a in r.adapters ==> StablePaths(a.files)
    ensures ManagedUnion(V3From(r, digest)) == ManagedUnion(r)
    ensures AllHashes(Sections(V3From(r, digest))).Keys == ManagedUnion(r)
    ensures var hashes := AllHashes(Sections(V3From(r, digest)));
      forall p :: p in hashes ==> hashes[p] == digest(p)
  {
    hide PathsOf, AdapterPaths, AdapterSections, AdaptersFrom, EntriesFrom, Digested, StablePaths, AllHashes;
    EntriesKeep(r.core, digest);
    EntriesKeep(r.distribution, digest);
    AdaptersKeep(r.adapters, digest);
    SectionsAreAll(V3From(r, digest));
    AllHashesKeep(Sections(V3From(r, digest)), digest);
  }

  /** From the first form to the third: nothing is lost, and every path is hashed. */
  lemma MigrationConserves(files: seq<string>, active: string, digest: string -> string)
    requires MigrateV1(files, active).Ok?
    ensures var v3 := V3From(MigrateV1(files, active).value, digest);
      ManagedUnion(v3) == Original(files) + {RECORD} && AllHashes(Sections(v3)).Keys == Original(files) + {RECORD}
  {
    hide ManagedUnion, Original, Movable, StablePaths, AllHashes, Sections, V3From, Normalize, BuildV2;
    MigratesIff(files, active);
    var r := MigrateV1(files, active).value;
    UnionStable(files, r);
    ThirdFormKeeps(r, digest);
  }

  lemma UnionStable(files: seq<string>, r: Record)
    requires ManagedUnion(r) == Original(files) + {RECORD} && forall q :: q in Original(files) ==> Movable(q)
    ensures StablePaths(r.core) && StablePaths(r.distribution)
    ensures forall a :: a in r.adapters ==> StablePaths(a.files)
  {
    hide Original, LEGACY, RECORD, Normalize, AdapterPaths, ClassifyManagedFile;
    RecordStable();
    forall q | q in ManagedUnion(r) ensures Stable(q) {
      assert q == RECORD || Movable(q);
    }
    PathsStable(r.core, ManagedUnion(r));
    PathsStable(r.distribution, ManagedUnion(r));
    forall a | a in r.adapters ensures StablePaths(a.files) {
      AdapterWithin(r.adapters, a);
      PathsStable(a.files, ManagedUnion(r));
    }
  }

  lemma PathsStable(entries: seq<Entry>, paths: set<string>)
    requires PathsOf(entries) <= paths && forall q :: q in paths ==> Stable(q)
    ensures StablePaths(entries)
  {
    hide Normalize, Stable;
    forall e | e in entries && !e.Foreign? ensures Stable(Normalize(e.path)) {
      assert Normalize(e.path) in PathsOf(entries);
    }
  }

  lemma {:induction false} AdapterWithin(adapters: seq<Adapter>, a: Adapter)
    requires a in adapters
    ensures PathsOf(a.files) <= AdapterPaths(adapters)
  {
    hide PathsOf;
    var n := |adapters| - 1;
    if a != adapters[n] {
      assert a in adapters[..n];
      AdapterWithin(adapters[..n], a);
    }
  }
}
