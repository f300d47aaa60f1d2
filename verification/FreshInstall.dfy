/** The first installation into a project: seeds, copied files and manifests
    under the same snapshot, rolled back from the same list when a step raises. */
module FreshInstall {
  import opened Text
  import opened Trees
  import opened Layout
  import opened Installer
  import opened InstallerResults
  import opened Updater

  /** What the seed step writes, one file after the other, and in front of which
      of the writes, or behind all, it raises if it does; the seed paths that are
      listed beforehand; then the copied files and the two manifests. */
  datatype Fresh = Fresh(
    seeds: seq<Write>, stop: Option<nat>, listed: seq<Path>,
    entries: seq<Entry>, compiled: Compiled, legacy: Write, record: Write)
  {
    predicate Stops() { stop.Some? && stop.value <= |seeds| }
  }

  function Seeded(t: Tree, seeds: seq<Write>): Tree {
    if seeds == [] then t
    else Seeded(t, seeds[..|seeds| - 1])[seeds[|seeds| - 1].path := seeds[|seeds| - 1].data]
  }

  /** The tree a completed installation leaves. */
  function Installed(t: Tree, f: Fresh): Option<Tree> {
    if f.Stops() then None
    else
      var copied := CopyEntries(Seeded(t, f.seeds), f.entries);
      var built := if Generates(f.entries) then Materialized(copied, f.compiled) else copied;
      Some(built[f.legacy.path := f.legacy.data][f.record.path := f.record.data])
  }

  /** The list that is snapshot and rolled back. */
  function TouchedList(f: Fresh): seq<Path> {
    f.listed + Dests(f.entries) + [f.record.path, f.legacy.path]
  }

  function Listed(f: Fresh): set<Path> { set p | p in TouchedList(f) }

  function RolledBackTo(before: Tree, f: Fresh, broken: Tree): Tree {
    Restored(before, Listed(f), broken)
  }

  lemma RolledBackAt(before: Tree, f: Fresh, broken: Tree, p: Path)
    ensures SameAt(before, RolledBackTo(before, f, broken), p) <==> p in Listed(f) || SameAt(before, broken, p)
  {
    hide Listed;
  }

  lemma RolledBackWhole(before: Tree, f: Fresh, broken: Tree)
    ensures RolledBackTo(before, f, broken) == before <==> forall p :: p in Listed(f) || SameAt(before, broken, p)
  {
    hide Listed, RolledBackTo;
    forall p ensures SameAt(before, RolledBackTo(before, f, broken), p) <==> p in Listed(f) || SameAt(before, broken, p) {
      RolledBackAt(before, f, broken, p);
    }
    if forall p :: p in Listed(f) || SameAt(before, broken, p) {
      SameEverywhere(before, RolledBackTo(before, f, broken));
    }
  }

  // ----------------------------------------------------- failures of the seeds

  lemma {:induction false} SeededAt(t: Tree, seeds: seq<Write>, p: Path)
    ensures SameAt(t, Seeded(t, seeds), p) || exists w :: w in seeds && w.path == p && HasFile(Seeded(t, seeds), p, w.data)
  {
    if seeds != [] {
      var n := |seeds| - 1;
      SeededAt(t, seeds[..n], p);
      assert seeds[n] in seeds;
      if p != seeds[n].path && !SameAt(t, Seeded(t, seeds[..n]), p) {
        var w :| w in seeds[..n] && w.path == p && HasFile(Seeded(t, seeds[..n]), p, w.data);
        assert w in seeds;
      }
    }
  }

  /** The seed step may raise between two writes wherever it is: that is always
      undone if and only if every seed is listed or leaves its file as it was. */
  lemma StoppedSeedsUndoneIff(before: Tree, f: Fresh)
    ensures (forall k: nat :: k <= |f.seeds| ==> RolledBackTo(before, f, Seeded(before, f.seeds[..k])) == before)
      <==> forall w :: w in f.seeds ==> w.path in Listed(f) || HasFile(before, w.path, w.data)
  {
    hide Listed, RolledBackTo;
    if forall w :: w in f.seeds ==> w.path in Listed(f) || HasFile(before, w.path, w.data) {
      forall k: nat | k <= |f.seeds| ensures RolledBackTo(before, f, Seeded(before, f.seeds[..k])) == before {
        HarmlessSeeds(before, f, k);
      }
    }
    if forall k: nat :: k <= |f.seeds| ==> RolledBackTo(before, f, Seeded(before, f.seeds[..k])) == before {
      forall w | w in f.seeds ensures w.path in Listed(f) || HasFile(before, w.path, w.data) {
        var i: nat :| i < |f.seeds| && f.seeds[i] == w;
        if w.path !in Listed(f) {
          SeedStays(before, f, i);
          assert RolledBackTo(before, f, Seeded(before, f.seeds[..i + 1])) == before;
        }
      }
    }
  }

  lemma HarmlessSeeds(before: Tree, f: Fresh, k: nat)
    requires k <= |f.seeds| && forall w :: w in f.seeds ==> w.path in Listed(f) || HasFile(before, w.path, w.data)
    ensures RolledBackTo(before, f, Seeded(before, f.seeds[..k])) == before
  {
    hide Listed, RolledBackTo, Seeded;
    var broken := Seeded(before, f.seeds[..k]);
    forall p ensures p in Listed(f) || SameAt(before, broken, p) {
      SeededAt(before, f.seeds[..k], p);
    }
    RolledBackWhole(before, f, broken);
  }

  /** A seed that is written, and not listed, stays behind. */
  lemma SeedStays(before: Tree, f: Fresh, i: nat)
    requires i < |f.seeds| && f.seeds[i].path !in Listed(f)
    ensures HasFile(RolledBackTo(before, f, Seeded(before, f.seeds[..i + 1])), f.seeds[i].path, f.seeds[i].data)
  {
    hide Listed;
    assert f.seeds[..i + 1][..i] == f.seeds[..i];
  }

  /** A write may also fail half way: that is always undone if and only if every
      seed is listed. */
  lemma HalfSeedsUndoneIff(before: Tree, f: Fresh)
    ensures (forall k: nat, half :: k < |f.seeds| ==> RolledBackTo(before, f, HalfSeeded(before, f, k, half)) == before)
      <==> forall w :: w in f.seeds ==> w.path in Listed(f)
  {
    hide Listed, RolledBackTo, HalfSeeded;
    if forall w :: w in f.seeds ==> w.path in Listed(f) {
      forall k: nat, half | k < |f.seeds| ensures RolledBackTo(before, f, HalfSeeded(before, f, k, half)) == before {
        ListedSeeds(before, f, k, half);
      }
    }
    if forall k: nat, half :: k < |f.seeds| ==> RolledBackTo(before, f, HalfSeeded(before, f, k, half)) == before {
      forall w | w in f.seeds ensures w.path in Listed(f) {
        var i: nat :| i < |f.seeds| && f.seeds[i] == w;
        var half := if w.path in before then before[w.path] + "x" else "x";
        HalfStays(before, f, i, half);
        assert RolledBackTo(before, f, HalfSeeded(before, f, i, Some(half))) == before;
      }
    }
  }

  /** The tree when write `k` of the seeds fails. */
  function HalfSeeded(before: Tree, f: Fresh, k: nat, half: Option<string>): Tree
    requires k < |f.seeds|
  {
    WithHalf(Seeded(before, f.seeds[..k]), f.seeds[k].path, half)
  }

  lemma ListedSeeds(before: Tree, f: Fresh, k: nat, half: Option<string>)
    requires k < |f.seeds| && forall w :: w in f.seeds ==> w.path in Listed(f)
    ensures RolledBackTo(before, f, HalfSeeded(before, f, k, half)) == before
  {
    hide Listed, RolledBackTo, Seeded;
    assert f.seeds[k] in f.seeds;
    forall p ensures p in Listed(f) || SameAt(before, HalfSeeded(before, f, k, half), p) {
      SeededAt(before, f.seeds[..k], p);
    }
    RolledBackWhole(before, f, HalfSeeded(before, f, k, half));
  }

  lemma HalfStays(before: Tree, f: Fresh, i: nat, half: string)
    requires i < |f.seeds|
    ensures f.seeds[i].path !in Listed(f) ==>
      HasFile(RolledBackTo(before, f, HalfSeeded(before, f, i, Some(half))), f.seeds[i].path, half)
  {
    hide Listed, Seeded;
  }

  // ------------------------------------- the seeds that the framework writes

  const PROFILE_SEED: Path := [".ai-team", "project-profile.yaml"]
  const STATE_SEED: Path := [".ai-team", "state", "project-state.yaml"]
  const SOURCES_SEED: Path := [".ai-team", "sources", "source-registry.yaml"]
  const CATALOG: Path := [".ai-team", "catalog.yaml"]
  const SECRETS_IGNORE: Path := [".ai-team", "secrets", ".gitignore"]
  const LOGS_IGNORE: Path := [".ai-team", "logs", ".gitignore"]
  const IGNORE_TEXT := "*\n!.gitignore\n"

  /** The writes of the seed step, texts apart, when no password is given and the
      enrollment cannot be reached. */
  function FrameworkSeeds(profile: string, catalog: string, state: string, sources: string): seq<Write> {
    [Write(PROFILE_SEED, profile), Write(STATE_SEED, state), Write(SOURCES_SEED, sources),
     Write(CATALOG, catalog), Write(SECRETS_IGNORE, IGNORE_TEXT), Write(LOGS_IGNORE, IGNORE_TEXT), Write(STATE_SEED, state)]
  }

  const FRAMEWORK_LISTED: seq<Path> := [PROFILE_SEED, STATE_SEED, SOURCES_SEED, CATALOG]

  /** Into an empty project, with no file to copy: an installation that stops
      behind its seeds leaves both ignore files. */
  lemma IgnoreFilesStay(f: Fresh, profile: string, catalog: string, state: string, sources: string)
    requires f.seeds == FrameworkSeeds(profile, catalog, state, sources) && f.listed == FRAMEWORK_LISTED
    requires f.entries == [] && f.record.path == [".ai-team", "installation-record.json"]
    requires f.legacy.path == [".ai-team", "framework-version.json"]
    ensures var after := RolledBackTo(map[], f, Seeded(map[], f.seeds));
      HasFile(after, SECRETS_IGNORE, IGNORE_TEXT) && HasFile(after, LOGS_IGNORE, IGNORE_TEXT)
    ensures !(forall k: nat :: k <= |f.seeds| ==> RolledBackTo(map[], f, Seeded(map[], f.seeds[..k])) == map[])
  {
    IgnoreFilesUnlisted(f);
    hide Listed, RolledBackTo, SECRETS_IGNORE, LOGS_IGNORE, IGNORE_TEXT, PROFILE_SEED, STATE_SEED, SOURCES_SEED, CATALOG;
    SeedsInOrder(map[], f.seeds);
    StateElsewhere();
    var broken := Seeded(map[], f.seeds);
    assert HasFile(broken, SECRETS_IGNORE, IGNORE_TEXT) && HasFile(broken, LOGS_IGNORE, IGNORE_TEXT);
    RolledBackAt(map[], f, broken, SECRETS_IGNORE);
    RolledBackKeeps(map[], f, broken, SECRETS_IGNORE);
    RolledBackKeeps(map[], f, broken, LOGS_IGNORE);
    assert f.seeds[..7] == f.seeds;
  }

  lemma SeedsInOrder(t: Tree, s: seq<Write>)
    requires |s| == 7
    ensures Seeded(t, s) ==
      t[s[0].path := s[0].data][s[1].path := s[1].data][s[2].path := s[2].data][s[3].path := s[3].data]
        [s[4].path := s[4].data][s[5].path := s[5].data][s[6].path := s[6].data]
  {
    SeededNone(t);
    assert s[..0] == [] && s[..7] == s;
    SeededMore(t, s, 0);
    SeededMore(t, s, 1);
    SeededMore(t, s, 2);
    SeededMore(t, s, 3);
    SeededMore(t, s, 4);
    SeededMore(t, s, 5);
    SeededMore(t, s, 6);
    hide Seeded;
  }

  lemma SeededNone(t: Tree)
    ensures Seeded(t, []) == t
  {
  }

  lemma RolledBackKeeps(before: Tree, f: Fresh, broken: Tree, p: Path)
    requires p !in Listed(f) && p in broken
    ensures HasFile(RolledBackTo(before, f, broken), p, broken[p])
  {
    hide Listed;
  }

  lemma StateElsewhere()
    ensures STATE_SEED != SECRETS_IGNORE && STATE_SEED != LOGS_IGNORE && SECRETS_IGNORE != LOGS_IGNORE
  {
    assert STATE_SEED[1][1] == 't' && SECRETS_IGNORE[1][1] == 'e' && LOGS_IGNORE[1][1] == 'o';
  }

  lemma IgnoreFilesUnlisted(f: Fresh)
    requires f.listed == FRAMEWORK_LISTED && f.entries == []
    requires f.record.path == [".ai-team", "installation-record.json"] && f.legacy.path == [".ai-team", "framework-version.json"]
    ensures SECRETS_IGNORE !in Listed(f) && LOGS_IGNORE !in Listed(f)
  {
    assert TouchedList(f) == FRAMEWORK_LISTED + [f.record.path, f.legacy.path];
    StateElsewhere();
    assert |PROFILE_SEED| == 2 && |CATALOG| == 2 && SOURCES_SEED[1][1] == 'o' && SOURCES_SEED[1][0] == 's';
    assert LOGS_IGNORE[1][0] == 'l' && SECRETS_IGNORE[1][1] == 'e';
  }

  // -------------------------------------------- what an installation leaves

  predicate Manifest(f: Fresh, p: Path) { p == f.legacy.path || p == f.record.path }

  /** Somebody writes `p` behind the entries. */
  predicate CoveredBy(f: Fresh, p: Path) { Manifest(f, p) || Compiles(f.entries, f.compiled, p) }

  predicate SeededPath(f: Fresh, p: Path) { exists w :: w in f.seeds && w.path == p }

  ghost predicate FreshManifests(f: Fresh, after: Tree) {
    && HasFile(after, f.record.path, f.record.data)
    && (f.legacy.path != f.record.path ==> HasFile(after, f.legacy.path, f.legacy.data))
  }

  ghost predicate FreshCompiled(f: Fresh, after: Tree) {
    forall p :: Compiles(f.entries, f.compiled, p) && !Manifest(f, p) ==>
      if p == f.compiled.hooks then HasFile(after, p, f.compiled.hooksText) else SameAt(f.compiled.staged, after, p)
  }

  ghost predicate FreshEntries(before: Tree, f: Fresh, after: Tree) {
    forall i :: 0 <= i < |f.entries| && !CoveredBy(f, f.entries[i].dest) ==>
      var e := f.entries[i];
      && (e.Copy? && IsLast(f.entries, i) ==> HasFile(after, e.dest, e.data))
      && (e.Agents? && IsOnly(f.entries, i) && !SeededPath(f, e.dest) ==> Merged(before, after, e.dest, e.body))
  }

  ghost predicate FreshSeeds(f: Fresh, after: Tree) {
    forall i :: 0 <= i < |f.seeds| && (forall j :: i < j < |f.seeds| ==> f.seeds[j].path != f.seeds[i].path) ==>
      || CoveredBy(f, f.seeds[i].path) || Entered(f.entries, f.seeds[i].path)
      || HasFile(after, f.seeds[i].path, f.seeds[i].data)
  }

  /** Seeds, files, compiled directory and manifests stand; the rest is as it was. */
  ghost predicate AsInstalled(before: Tree, f: Fresh, after: Tree) {
    && FreshManifests(f, after) && FreshCompiled(f, after) && FreshEntries(before, f, after) && FreshSeeds(f, after)
    && forall p :: !CoveredBy(f, p) && !Entered(f.entries, p) && !SeededPath(f, p) ==> SameAt(before, after, p)
  }

  lemma {:induction false} LastSeed(t: Tree, seeds: seq<Write>, i: nat)
    requires i < |seeds| && forall j :: i < j < |seeds| ==> seeds[j].path != seeds[i].path
    ensures HasFile(Seeded(t, seeds), seeds[i].path, seeds[i].data)
  {
    var n := |seeds| - 1;
    if i < n {
      assert seeds[..n][i] == seeds[i];
      LastSeed(t, seeds[..n], i);
    }
  }

  /** Behind the entries, path by path. */
  lemma InstalledAt(t: Tree, f: Fresh, after: Tree, p: Path)
    requires f.compiled.Valid() && Installed(t, f) == Some(after)
    ensures !CoveredBy(f, p) ==> SameAt(CopyEntries(Seeded(t, f.seeds), f.entries), after, p)
    ensures Compiles(f.entries, f.compiled, p) && !Manifest(f, p) ==> SameAt(f.compiled.Output(), after, p)
  {
    hide Seeded, CopyEntries;
  }

  /** A completed installation leaves what was planned. */
  lemma InstallLeaves(before: Tree, f: Fresh, after: Tree)
    requires f.compiled.Valid() && Installed(before, f) == Some(after)
    ensures AsInstalled(before, f, after) && !f.Stops()
  {
    var seeded := Seeded(before, f.seeds);
    var copied := CopyEntries(seeded, f.entries);
    assert FreshManifests(f, after);
    hide Seeded, CopyEntries, Installed, CoveredBy, Entered, Compiles, Manifest, Merged;
    forall p
      ensures Compiles(f.entries, f.compiled, p) && !Manifest(f, p) ==> SameAt(f.compiled.Output(), after, p)
      ensures !CoveredBy(f, p) && !Entered(f.entries, p) ==> SameAt(seeded, after, p)
      ensures !CoveredBy(f, p) && !Entered(f.entries, p) && !SeededPath(f, p) ==> SameAt(before, after, p)
    {
      InstalledAt(before, f, after, p);
      SeededAt(before, f.seeds, p);
      if !Entered(f.entries, p) { UnenteredStays(seeded, f.entries, p); }
    }
    forall i | 0 <= i < |f.seeds| && forall j :: i < j < |f.seeds| ==> f.seeds[j].path != f.seeds[i].path
      ensures HasFile(seeded, f.seeds[i].path, f.seeds[i].data)
    {
      LastSeed(before, f.seeds, i);
    }
    EntriesInstalled(before, f, after);
  }

  lemma EntriesInstalled(before: Tree, f: Fresh, after: Tree)
    requires f.compiled.Valid() && Installed(before, f) == Some(after)
    ensures FreshEntries(before, f, after)
  {
    hide Seeded, CopyEntries, Installed, CoveredBy, Merged;
    var seeded := Seeded(before, f.seeds);
    var copied := CopyEntries(seeded, f.entries);
    forall i | 0 <= i < |f.entries| && !CoveredBy(f, f.entries[i].dest)
      ensures var e := f.entries[i];
        && (e.Copy? && IsLast(f.entries, i) ==> HasFile(after, e.dest, e.data))
        && (e.Agents? && IsOnly(f.entries, i) && !SeededPath(f, e.dest) ==> Merged(before, after, e.dest, e.body))
    {
      var e := f.entries[i];
      InstalledAt(before, f, after, e.dest);
      if e.Copy? && IsLast(f.entries, i) { LastEntry(seeded, f.entries, i); }
      if e.Agents? && IsOnly(f.entries, i) && !SeededPath(f, e.dest) {
        OnlyEntryMerges(seeded, f.entries, i);
        SeededAt(before, f.seeds, e.dest);
        MergedSame(seeded, copied, before, after, e.dest, e.body);
      }
    }
  }

  // ------------------------------------------------------------- the method

  /** Every file the installation may write or replace is listed. */
  ghost predicate AllListed(before: Tree, f: Fresh) {
    && (forall w :: w in f.seeds ==> w.path in Listed(f))
    && (Generates(f.entries) ==> DirListed(before, f))
  }

  ghost predicate DirListed(before: Tree, f: Fresh) {
    forall p :: Under(f.compiled.dir, p) && (p in before || p in f.compiled.Output()) ==> p in Listed(f)
  }

  /** How a replacement of the compiled directory that breaks off is undone: always,
      if and only if every file that it held, or is given, is listed. */
  lemma TornInstallUndoneIff(before: Tree, f: Fresh, was: Tree)
    requires f.compiled.Valid() && forall p :: p in Listed(f) || SameAt(before, was, p)
    ensures (forall broken :: Interrupted(was, f.compiled, broken) ==> RolledBackTo(before, f, broken) == before)
      <==> DirListed(before, f)
  {
    hide Listed, RolledBackTo, Interrupted, DirListed;
    if DirListed(before, f) {
      forall broken | Interrupted(was, f.compiled, broken) ensures RolledBackTo(before, f, broken) == before {
        TornInstallUndone(before, f, was, broken);
      }
    } else {
      var broken := TornInstallStays(before, f, was);
    }
  }

  lemma TornInstallUndone(before: Tree, f: Fresh, was: Tree, broken: Tree)
    requires f.compiled.Valid() && forall p :: p in Listed(f) || SameAt(before, was, p)
    requires Interrupted(was, f.compiled, broken) && DirListed(before, f)
    ensures RolledBackTo(before, f, broken) == before
  {
    hide Listed, RolledBackTo, Compiled.Output;
    forall p ensures p in Listed(f) || SameAt(before, broken, p) {
      InterruptedAt(was, f.compiled, broken, p);
    }
    RolledBackWhole(before, f, broken);
  }

  lemma TornInstallStays(before: Tree, f: Fresh, was: Tree) returns (broken: Tree)
    requires f.compiled.Valid() && !DirListed(before, f)
    requires forall p :: p in Listed(f) || SameAt(before, was, p)
    ensures Interrupted(was, f.compiled, broken) && RolledBackTo(before, f, broken) != before
  {
    hide Listed, RolledBackTo;
    var c := f.compiled;
    var p :| Under(c.dir, p) && (p in before || p in c.Output()) && p !in Listed(f);
    if p in before {
      broken := Removed(was, c.dir);
      assert PartlyRemoved(was, c.dir, broken);
    } else {
      var done: set<Path> := if p in c.staged then {} else c.staged.Keys;
      broken := (Removed(was, c.dir) + Part(c.staged, done))[p := ""];
      assert PartlyCopied(was, c, broken, done, p, Some(""));
    }
    RolledBackAt(before, f, broken, p);
  }

  /** A failure behind the replacement is undone if and only if what is not listed
      in the directory is rebuilt as it was. */
  ghost predicate DirRebuilt(before: Tree, f: Fresh) {
    forall p :: Under(f.compiled.dir, p) ==> p in Listed(f) || SameAt(f.compiled.Output(), before, p)
  }

  method WriteSeeds(disk: Disk, f: Fresh) returns (ok: bool, ghost k: nat, ghost half: Option<string>)
    modifies disk`files, disk`faulty
    ensures ok ==> !f.Stops() && disk.files == Seeded(old(disk.files), f.seeds) && disk.faulty == old(disk.faulty)
    ensures !ok && disk.faulty == old(disk.faulty) == false ==> f.Stops() && disk.files == Seeded(old(disk.files), f.seeds[..f.stop.value])
    ensures !ok && disk.faulty && !old(disk.faulty) ==> k < |f.seeds| && disk.files == HalfSeeded(old(disk.files), f, k, half)
    ensures forall p :: (exists w :: w in f.seeds && w.path == p) || SameAt(old(disk.files), disk.files, p)
  {
    ghost var start := disk.files;
    half := None;
    for i := 0 to |f.seeds|
      invariant disk.files == Seeded(start, f.seeds[..i]) && disk.faulty == old(disk.faulty)
      invariant f.stop.Some? ==> i <= f.stop.value
      invariant forall p :: (exists w :: w in f.seeds && w.path == p) || SameAt(start, disk.files, p)
    {
      hide Seeded;
      k := i;
      if f.stop == Some(i) { return false, i, None; }
      SeededMore(start, f.seeds, i);
      ghost var was := disk.files;
      ok, half := disk.PutHalf(f.seeds[i].path, f.seeds[i].data);
      forall p ensures (exists w :: w in f.seeds && w.path == p) || SameAt(start, disk.files, p) {
        assert (exists w :: w in f.seeds && w.path == p) || SameAt(start, was, p);
        assert f.seeds[i] in f.seeds;
        assert p == f.seeds[i].path || SameAt(was, disk.files, p);
      }
      if !ok { return; }
    }
    assert f.seeds[..|f.seeds|] == f.seeds;
    k := |f.seeds|;
    ok := f.stop != Some(|f.seeds|);
  }

  lemma SeededMore(t: Tree, seeds: seq<Write>, i: nat)
    requires i < |seeds|
    ensures Seeded(t, seeds[..i + 1]) == Seeded(t, seeds[..i])[seeds[i].path := seeds[i].data]
  {
    assert seeds[..i + 1][..i] == seeds[..i];
  }

  /** Seeds, files, manifests: up to the first that raises. */
  method AttemptInstall(disk: Disk, f: Fresh) returns (ok: bool, ghost was: Tree)
    requires f.compiled.Valid() && disk.replacement == NotBegun && !disk.faulty
    modifies disk
    ensures ok ==> Installed(old(disk.files), f) == Some(disk.files) && !disk.faulty
    ensures !ok && !disk.faulty ==> f.Stops() && disk.files == Seeded(old(disk.files), f.seeds[..f.stop.value])
    ensures disk.replacement == NotBegun ==> forall p :: SeedOrListed(f, p) || SameAt(old(disk.files), disk.files, p)
    ensures disk.replacement == Torn ==> Generates(f.entries) && Interrupted(was, f.compiled, disk.files)
    ensures disk.replacement == Torn ==> forall p :: SeedOrListed(f, p) || SameAt(old(disk.files), was, p)
    ensures disk.replacement == Replaced ==> Generates(f.entries)
    ensures disk.replacement == Replaced ==>
      forall p :: Under(f.compiled.dir, p) ==> p in Listed(f) || SameAt(f.compiled.Output(), disk.files, p)
    ensures disk.replacement == Replaced ==>
      forall p :: Under(f.compiled.dir, p) || SeedOrListed(f, p) || SameAt(old(disk.files), disk.files, p)
  {
    hide Seeded, CopyEntries, Generates, Dests, Compiled.Valid, Interrupted, Compiled.Output, HalfSeeded;
    ghost var t0 := disk.files;
    was := t0;
    ghost var k, half;
    ok, k, half := WriteSeeds(disk, f);
    ghost var t1 := disk.files;
    SeedsAreSeeds(f, t0, t1);
    if !ok { return; }
    was := CopyEntries(t1, f.entries);
    EntriesAreListed(f, t0, t1);
    ok := disk.ApplyCopyEntries(f.entries, f.compiled);
    ghost var t2 := disk.files;
    AfterFiles(f, t0, t1, t2, disk.replacement);
    if !ok { return; }
    ok := disk.Put(f.legacy.path, f.legacy.data);
    ghost var t3 := disk.files;
    AfterManifest(f, t0, t2, t3, f.legacy.path, disk.replacement);
    if !ok { return; }
    ok := disk.Put(f.record.path, f.record.data);
    AfterManifest(f, t0, t3, disk.files, f.record.path, disk.replacement);
  }

  ghost predicate SeedOrListed(f: Fresh, p: Path) {
    p in Listed(f) || exists w :: w in f.seeds && w.path == p
  }

  /** What holds outside, and inside, of the compiled directory once it is replaced. */
  ghost predicate Far(f: Fresh, start: Tree, now: Tree, replacement: Replacement) {
    && (replacement == NotBegun ==> forall p :: SeedOrListed(f, p) || SameAt(start, now, p))
    && (replacement == Replaced ==> forall p :: Under(f.compiled.dir, p) ==> p in Listed(f) || SameAt(f.compiled.Output(), now, p))
    && (replacement == Replaced ==> forall p :: Under(f.compiled.dir, p) || SeedOrListed(f, p) || SameAt(start, now, p))
  }

  lemma SeedsAreSeeds(f: Fresh, start: Tree, now: Tree)
    requires forall p :: (exists w :: w in f.seeds && w.path == p) || SameAt(start, now, p)
    ensures forall p :: SeedOrListed(f, p) || SameAt(start, now, p)
  {
    hide Listed;
  }

  lemma EntriesAreListed(f: Fresh, start: Tree, was: Tree)
    requires forall p :: SeedOrListed(f, p) || SameAt(start, was, p)
    ensures forall p :: SeedOrListed(f, p) || SameAt(start, CopyEntries(was, f.entries), p)
  {
    DestsListed(f);
    forall p ensures SeedOrListed(f, p) || SameAt(start, CopyEntries(was, f.entries), p) {
      hide Listed, Dests;
      CopiedEntriesFrame(was, f.entries, p);
      assert SeedOrListed(f, p) || SameAt(start, was, p);
    }
  }

  lemma DestsListed(f: Fresh)
    ensures forall p :: p in Dests(f.entries) ==> p in Listed(f)
    ensures f.record.path in Listed(f) && f.legacy.path in Listed(f)
  {
  }

  lemma AfterFiles(f: Fresh, start: Tree, was: Tree, now: Tree, replacement: Replacement)
    requires f.compiled.Valid()
    requires forall p :: SeedOrListed(f, p) || SameAt(start, was, p)
    requires replacement == NotBegun ==> forall p :: p in Dests(f.entries) || SameAt(was, now, p)
    requires replacement == Replaced ==> now == Materialized(CopyEntries(was, f.entries), f.compiled)
    ensures Far(f, start, now, replacement)
  {
    DestsListed(f);
    EntriesAreListed(f, start, was);
    hide Listed, Dests, CopyEntries;
    var copied := CopyEntries(was, f.entries);
    if replacement == NotBegun {
      forall p ensures SeedOrListed(f, p) || SameAt(start, now, p) {
        assert SeedOrListed(f, p) || SameAt(start, was, p);
      }
    } else if replacement == Replaced {
      forall p ensures Under(f.compiled.dir, p) || SeedOrListed(f, p) || SameAt(start, now, p) {
        assert SeedOrListed(f, p) || SameAt(start, copied, p);
        assert Under(f.compiled.dir, p) || SameAt(copied, now, p);
      }
      forall p | Under(f.compiled.dir, p) ensures SameAt(f.compiled.Output(), now, p) {
      }
    }
  }

  lemma AfterManifest(f: Fresh, start: Tree, was: Tree, now: Tree, path: Path, replacement: Replacement)
    requires Far(f, start, was, replacement) && path in Listed(f)
    requires forall p :: p == path || SameAt(was, now, p)
    ensures Far(f, start, now, replacement)
  {
    hide Listed, Compiled.Output;
    if replacement == NotBegun {
      forall p ensures SeedOrListed(f, p) || SameAt(start, now, p) {
        assert SeedOrListed(f, p) || SameAt(start, was, p);
        assert p == path || SameAt(was, now, p);
      }
    } else if replacement == Replaced {
      forall p ensures Under(f.compiled.dir, p) || SeedOrListed(f, p) || SameAt(start, now, p) {
        assert Under(f.compiled.dir, p) || SeedOrListed(f, p) || SameAt(start, was, p);
        assert p == path || SameAt(was, now, p);
      }
      forall p | Under(f.compiled.dir, p) ensures p in Listed(f) || SameAt(f.compiled.Output(), now, p) {
        assert p in Listed(f) || SameAt(f.compiled.Output(), was, p);
        assert p == path || SameAt(was, now, p);
      }
    }
  }

  /** `install_fresh` behind its collision check. Stopped by a step that raises, it
      is undone if and only if the seeds it wrote are listed or changed nothing;
      stopped by a failing operation, it is undone if all its seeds, and in a
      replaced directory all files, are listed. */
  method InstallFresh(disk: Disk, f: Fresh) returns (installed: bool, ghost broken: Tree)
    requires f.compiled.Valid()
    modifies disk
    ensures installed ==> !disk.faulty && Installed(old(disk.files), f) == Some(disk.files)
    ensures installed ==> AsInstalled(old(disk.files), f, disk.files) && !f.Stops()
    ensures !installed && !disk.faulty ==> f.Stops()
    ensures !installed ==> disk.files == RolledBackTo(old(disk.files), f, broken)
    ensures !installed && !disk.faulty ==> broken == Seeded(old(disk.files), f.seeds[..f.stop.value])
    ensures !installed && AllListed(old(disk.files), f) ==> disk.files == old(disk.files)
    ensures !installed && disk.replacement == NotBegun && (forall w :: w in f.seeds ==> w.path in Listed(f)) ==>
      disk.files == old(disk.files)
    ensures !installed && disk.replacement == Replaced && (forall w :: w in f.seeds ==> w.path in Listed(f)) ==>
      (disk.files == old(disk.files) <==> DirRebuilt(old(disk.files), f))
  {
    hide Installed, Restored, Seeded, Listed, AllListed, DirRebuilt, RolledBackTo, Interrupted, SeedOrListed, AsInstalled;
    disk.faulty, disk.replacement := false, NotBegun;
    var touched := TouchedList(f);
    var backup := disk.CreateSnapshot(touched);
    ghost var before := disk.files;
    ghost var was;
    installed, was := AttemptInstall(disk, f);
    broken := disk.files;
    if installed {
      InstallLeaves(before, f, disk.files);
    } else {
      disk.RollbackPaths(touched, backup, before);
      RollsBack(before, f, broken);
      FailureUndone(before, f, was, broken, disk.replacement);
    }
  }

  lemma RollsBack(before: Tree, f: Fresh, broken: Tree)
    ensures Restored(before, (set p | p in TouchedList(f)), broken) == RolledBackTo(before, f, broken)
  {
  }

  lemma FailureUndone(before: Tree, f: Fresh, was: Tree, broken: Tree, replacement: Replacement)
    requires f.compiled.Valid()
    requires replacement == NotBegun ==> forall p :: SeedOrListed(f, p) || SameAt(before, broken, p)
    requires replacement == Torn ==> Generates(f.entries) && Interrupted(was, f.compiled, broken)
    requires replacement == Torn ==> forall p :: SeedOrListed(f, p) || SameAt(before, was, p)
    requires replacement == Replaced ==> Generates(f.entries)
    requires replacement == Replaced ==>
      forall p :: Under(f.compiled.dir, p) ==> p in Listed(f) || SameAt(f.compiled.Output(), broken, p)
    requires replacement == Replaced ==> forall p :: Under(f.compiled.dir, p) || SeedOrListed(f, p) || SameAt(before, broken, p)
    ensures AllListed(before, f) ==> RolledBackTo(before, f, broken) == before
    ensures replacement == NotBegun && (forall w :: w in f.seeds ==> w.path in Listed(f)) ==> RolledBackTo(before, f, broken) == before
    ensures replacement == Replaced && (forall w :: w in f.seeds ==> w.path in Listed(f)) ==>
      (RolledBackTo(before, f, broken) == before <==> DirRebuilt(before, f))
  {
    hide Listed, RolledBackTo, Interrupted, Generates, Compiled.Output;
    RolledBackWhole(before, f, broken);
    if forall w :: w in f.seeds ==> w.path in Listed(f) {
      match replacement {
        case NotBegun =>
        case Torn =>
          if AllListed(before, f) { TornInstallUndone(before, f, was, broken); }
        case Replaced =>
          LateInstall(before, f, broken);
      }
    }
  }

  lemma LateInstall(before: Tree, f: Fresh, broken: Tree)
    requires forall w :: w in f.seeds ==> w.path in Listed(f)
    requires forall p :: Under(f.compiled.dir, p) ==> p in Listed(f) || SameAt(f.compiled.Output(), broken, p)
    requires forall p :: Under(f.compiled.dir, p) || SeedOrListed(f, p) || SameAt(before, broken, p)
    ensures (forall p :: p in Listed(f) || SameAt(before, broken, p)) <==> DirRebuilt(before, f)
    ensures DirListed(before, f) ==> DirRebuilt(before, f)
  {
    hide Listed, Compiled.Output;
    forall p ensures p in Listed(f) || SameAt(before, broken, p) <==>
      !Under(f.compiled.dir, p) || p in Listed(f) || SameAt(f.compiled.Output(), before, p)
    {
      assert Under(f.compiled.dir, p) || SeedOrListed(f, p) || SameAt(before, broken, p);
    }
  }
}
