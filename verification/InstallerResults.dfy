/** What a successful update and a successful first installation leave, path by
    path: the last step that writes a path decides what stands there. */
module InstallerResults {
  import opened Text
  import opened Trees
  import opened Layout
  import opened Installer
  import M = ManagedBlock

  // --------------------------------------------- which step writes which path

  /** The entry copies or merges the file `p`. */
  predicate Writes(e: Entry, p: Path) { !e.Generated? && e.dest == p }

  predicate Entered(entries: seq<Entry>, p: Path) {
    exists e :: e in entries && Writes(e, p)
  }

  /** The compiler owns `p`. */
  predicate Compiles(entries: seq<Entry>, c: Compiled, p: Path) {
    Generates(entries) && Under(c.dir, p)
  }

  predicate Changed(changes: seq<Change>, p: Path) {
    exists c :: c in changes && c.path == p
  }

  predicate BackedUp(changes: seq<Change>, p: Path) {
    exists c :: c in changes && c.backup == p
  }

  predicate IsEvent(plan: Plan, p: Path) { plan.event.Some? && p == plan.event.value.path }

  predicate IsState(plan: Plan, p: Path) { plan.state.Some? && p == plan.state.value.path }

  /** A legacy tree that the update has moved held `p`. */
  predicate Retired(before: Tree, p: Path) {
    exists m :: m in PlanMoves(before, RELOCATIONS) && Under(m.src, p)
  }

  predicate Relocated(before: Tree, plan: Plan, p: Path) {
    PlanMoves(before, RELOCATIONS) != [] && (UnderSome(PlanMoves(before, RELOCATIONS), p) || IsEvent(plan, p))
  }

  /** The steps behind the acceptance files: project state, manifests, and the end
      of the legacy trees. */
  predicate Closing(before: Tree, plan: Plan, p: Path) {
    Retired(before, p) || IsState(plan, p) || p == plan.legacy.path || p == plan.record.path
  }

  /** Somebody writes `p` behind the entries. */
  predicate Covered(before: Tree, plan: Plan, p: Path) {
    Closing(before, plan, p) || Changed(plan.changes, p) || Compiles(plan.entries, plan.compiled, p)
  }

  // ------------------------------------------------- the entries, one by one

  /** No entry behind `i` writes the same file. */
  predicate IsLast(entries: seq<Entry>, i: nat)
    requires i < |entries|
  {
    forall j :: i < j < |entries| ==> !Writes(entries[j], entries[i].dest)
  }

  predicate IsOnly(entries: seq<Entry>, i: nat)
    requires i < |entries|
  {
    forall j :: 0 <= j < |entries| && j != i ==> !Writes(entries[j], entries[i].dest)
  }

  lemma {:induction false} UnenteredStays(t: Tree, entries: seq<Entry>, p: Path)
    requires !Entered(entries, p)
    ensures SameAt(t, CopyEntries(t, entries), p)
  {
    if entries != [] {
      var n := |entries| - 1;
      assert entries[n] in entries;
      UnenteredStays(t, entries[..n], p);
    }
  }

  /** The last entry for a file decides: copied data stands there, and a merge
      was of what the entries before it left. */
  lemma {:induction false} LastEntry(t: Tree, entries: seq<Entry>, i: nat)
    requires i < |entries| && !entries[i].Generated? && IsLast(entries, i)
    ensures var e, now := entries[i], CopyEntries(t, entries);
      var was := CopyEntries(t, entries[..i]);
      HasFile(now, e.dest, if e.Copy? then e.data
                           else M.Written(M.GOVERNED, if e.dest in was then Some(was[e.dest]) else None, e.body))
  {
    hide M.Written;
    var n := |entries| - 1;
    if i < n {
      var init := entries[..n];
      assert init[..i] == entries[..i] && init[i] == entries[i];
      LastEntry(t, init, i);
      assert !Writes(entries[n], entries[i].dest);
    }
  }

  lemma OnlyEntry(t: Tree, entries: seq<Entry>, i: nat)
    requires i < |entries| && entries[i].Agents? && IsOnly(entries, i)
    ensures var e := entries[i];
      HasFile(CopyEntries(t, entries), e.dest,
              M.Written(M.GOVERNED, if e.dest in t then Some(t[e.dest]) else None, e.body))
  {
    hide CopyEntries, M.Written;
    LastEntry(t, entries, i);
    UnenteredStays(t, entries[..i], entries[i].dest);
  }

  /** The file `p` holds the merge of `body` into what `before` had there, and the
      block of it gives the body back exactly when that had no marker or its markers
      in order, and the body holds no end marker. */
  ghost predicate Merged(before: Tree, after: Tree, p: Path, body: string) {
    var existing := if p in before then Some(before[p]) else None;
    && HasFile(after, p, M.Written(M.GOVERNED, existing, body))
    && (M.Extract(M.GOVERNED, after[p]) == Some(M.Trim(body)) <==>
          (existing.Some? ==> M.WellOrdered(M.GOVERNED, existing.value)) && !Contains(body, M.GOVERNED.end))
  }

  lemma OnlyEntryMerges(t: Tree, entries: seq<Entry>, i: nat)
    requires i < |entries| && entries[i].Agents? && IsOnly(entries, i)
    ensures Merged(t, CopyEntries(t, entries), entries[i].dest, entries[i].body)
  {
    hide CopyEntries, M.Written, M.Extract, M.WellOrdered, M.Markers.Sound, Contains;
    OnlyEntry(t, entries, i);
    M.GovernedMarkersSound();
    var e := entries[i];
    M.WrittenGivesBackIff(M.GOVERNED, if e.dest in t then Some(t[e.dest]) else None, e.body);
  }

  // ------------------------------------------------------ the changed files

  /** Neither a changed file nor a new backup. */
  lemma {:induction false} UnchangedStays(t: Tree, changes: seq<Change>, now: Tree, p: Path)
    requires ApplyChanges(t, changes) == Some(now)
    ensures p in t ==> p in now
    ensures !Changed(changes, p) && (p in t || !BackedUp(changes, p)) ==> SameAt(t, now, p)
  {
    if changes != [] {
      var n := |changes| - 1;
      assert changes[n] in changes;
      UnchangedStays(t, changes[..n], ApplyChanges(t, changes[..n]).value, p);
    }
  }

  lemma {:induction false} LastChange(t: Tree, changes: seq<Change>, now: Tree, i: nat)
    requires ApplyChanges(t, changes) == Some(now) && i < |changes|
    requires forall j :: i < j < |changes| ==> changes[j].path != changes[i].path
    ensures HasFile(now, changes[i].path, changes[i].migrated)
  {
    var n := |changes| - 1;
    if i < n {
      assert changes[..n][i] == changes[i];
      LastChange(t, changes[..n], ApplyChanges(t, changes[..n]).value, i);
    }
  }

  lemma {:induction false} FirstBackup(t: Tree, changes: seq<Change>, now: Tree, i: nat)
    requires ApplyChanges(t, changes) == Some(now) && i < |changes|
    requires changes[i].backup !in t && !Changed(changes, changes[i].backup) && changes[i].path in t
    requires forall j :: 0 <= j < i ==> changes[j].backup != changes[i].backup && changes[j].path != changes[i].path
    ensures HasFile(now, changes[i].backup, t[changes[i].path])
  {
    var n := |changes| - 1;
    var before := ApplyChanges(t, changes[..n]).value;
    assert changes[n] in changes;
    if i < n {
      assert changes[..n][i] == changes[i];
      FirstBackup(t, changes[..n], before, i);
    } else {
      UnchangedStays(t, changes[..n], before, changes[n].path);
      UnchangedStays(t, changes[..n], before, changes[n].backup);
    }
  }

  // --------------------------------------------------------------- the update

  /** A step in front of the acceptance files writes `p`. */
  predicate Early(before: Tree, plan: Plan, p: Path) {
    Relocated(before, plan, p) || Entered(plan.entries, p) || Compiles(plan.entries, plan.compiled, p)
  }

  /** In front of the project state's edit nothing has happened to `p`. */
  predicate Untouched(before: Tree, plan: Plan, p: Path) {
    !Early(before, plan, p) && !Changed(plan.changes, p) && (p in before || !BackedUp(plan.changes, p))
  }

  ghost predicate LegacyGone(before: Tree, after: Tree) {
    forall p :: Retired(before, p) ==> p !in after
  }

  ghost predicate ManifestsStand(before: Tree, plan: Plan, after: Tree) {
    && (!Retired(before, plan.record.path) ==> HasFile(after, plan.record.path, plan.record.data))
    && (!Retired(before, plan.legacy.path) && plan.legacy.path != plan.record.path ==>
          HasFile(after, plan.legacy.path, plan.legacy.data))
  }

  /** The project state is the edit of the old one, or of the migrated one. */
  ghost predicate StateStands(before: Tree, plan: Plan, after: Tree)
  {
    plan.state.Some? ==>
      var (p, edit) := (plan.state.value.path, plan.state.value.edit);
      !Retired(before, p) && p != plan.legacy.path && p != plan.record.path ==>
        && p in after
        && (Untouched(before, plan, p) ==> p in before && edit(before[p]) == Some(after[p]))
        && (forall i :: 0 <= i < |plan.changes| && plan.changes[i].path == p && LastFor(plan.changes, i) ==>
              edit(plan.changes[i].migrated) == Some(after[p]))
  }

  predicate LastFor(changes: seq<Change>, i: nat)
    requires i < |changes|
  {
    forall j :: i < j < |changes| ==> changes[j].path != changes[i].path
  }

  ghost predicate ChangesStand(before: Tree, plan: Plan, after: Tree) {
    forall i :: 0 <= i < |plan.changes| && LastFor(plan.changes, i) && !Closing(before, plan, plan.changes[i].path) ==>
      HasFile(after, plan.changes[i].path, plan.changes[i].migrated)
  }

  /** The first change that backs up to this path is the first of its file. */
  predicate FirstFor(changes: seq<Change>, i: nat)
    requires i < |changes|
  {
    forall j :: 0 <= j < i ==> changes[j].backup != changes[i].backup && changes[j].path != changes[i].path
  }

  /** A backup that was not there holds the old text. */
  ghost predicate BackupsStand(before: Tree, plan: Plan, after: Tree) {
    forall i :: 0 <= i < |plan.changes| && FirstFor(plan.changes, i) ==>
      var (p, b) := (plan.changes[i].path, plan.changes[i].backup);
      p in before && !Early(before, plan, p) && b !in before && !Early(before, plan, b)
      && !Closing(before, plan, b) && !Changed(plan.changes, b)
      ==> HasFile(after, b, before[p])
  }

  /** In the compiled directory stand just the compiler's files. */
  ghost predicate CompilerStands(before: Tree, plan: Plan, after: Tree) {
    forall p :: Compiles(plan.entries, plan.compiled, p) && !Closing(before, plan, p) && !Changed(plan.changes, p) ==>
      if p == plan.compiled.hooks then HasFile(after, p, plan.compiled.hooksText) else SameAt(plan.compiled.staged, after, p)
  }

  ghost predicate EntriesStand(before: Tree, plan: Plan, after: Tree) {
    forall i :: 0 <= i < |plan.entries| && !Covered(before, plan, plan.entries[i].dest) ==>
      var e := plan.entries[i];
      && (e.Copy? && IsLast(plan.entries, i) ==> HasFile(after, e.dest, e.data))
      && (e.Agents? && IsOnly(plan.entries, i) && !Relocated(before, plan, e.dest) ==> Merged(before, after, e.dest, e.body))
  }

  ghost predicate RelocationStands(before: Tree, plan: Plan, after: Tree) {
    forall p :: Relocated(before, plan, p) && !Covered(before, plan, p) && !Entered(plan.entries, p) ==>
      if IsEvent(plan, p) then HasFile(after, p, plan.event.value.data)
      else
        var moved := ApplyMoves(before, PlanMoves(before, RELOCATIONS));
        SameAt(moved, after, p) || (p !in moved && BackedUp(plan.changes, p))
  }

  ghost predicate RestStands(before: Tree, plan: Plan, after: Tree) {
    forall p :: Untouched(before, plan, p) && !Closing(before, plan, p) ==> SameAt(before, after, p)
  }

  /** What a committed update leaves. */
  ghost predicate AsPlanned(before: Tree, plan: Plan, after: Tree) {
    && LegacyGone(before, after) && ManifestsStand(before, plan, after) && StateStands(before, plan, after)
    && ChangesStand(before, plan, after) && BackupsStand(before, plan, after) && CompilerStands(before, plan, after)
    && EntriesStand(before, plan, after) && RelocationStands(before, plan, after) && RestStands(before, plan, after)
  }

  /** The trees in front of the acceptance files ... */
  ghost predicate Front(before: Tree, plan: Plan, t1: Tree, t2: Tree) {
    var moves := PlanMoves(before, RELOCATIONS);
    && t1 == (if moves == [] then before else Put(ApplyMoves(before, moves), plan.event))
    && t2 == ApplyEntries(t1, plan)
  }

  /** ... and those behind. */
  ghost predicate Layers(before: Tree, plan: Plan, t1: Tree, t2: Tree, t3: Tree, t4: Tree, after: Tree) {
    && Front(before, plan, t1, t2)
    && ApplyChanges(t2, plan.changes) == Some(t3) && EditState(t3, plan.state) == Some(t4)
    && after == RemoveSources(Finalized(t4, plan), PlanMoves(before, RELOCATIONS))
  }

  lemma HasLayers(before: Tree, plan: Plan, after: Tree) returns (t1: Tree, t2: Tree, t3: Tree, t4: Tree)
    requires Updated(before, plan) == Some(after)
    ensures Layers(before, plan, t1, t2, t3, t4, after) && plan.valid
  {
    hide PlanMoves, ApplyMoves, ApplyEntries, ApplyChanges, EditState, Finalized, RemoveSources, Put;
    var moves := PlanMoves(before, RELOCATIONS);
    t1 := if moves == [] then before else Put(ApplyMoves(before, moves), plan.event);
    t2 := ApplyEntries(t1, plan);
    t3 := ApplyChanges(t2, plan.changes).value;
    t4 := EditState(t3, plan.state).value;
  }

  lemma {:induction false} SourcesGoOnly(t: Tree, moves: seq<Relocation>, p: Path)
    requires forall m :: m in moves ==> !Under(m.src, p)
    ensures SameAt(t, RemoveSources(t, moves), p)
  {
    if moves != [] {
      var n := |moves| - 1;
      assert moves[n] in moves;
      SourcesGoOnly(t, moves[..n], p);
    }
  }

  /** From the acceptance files to the end. */
  lemma EndAt(before: Tree, plan: Plan, t1: Tree, t2: Tree, t3: Tree, t4: Tree, after: Tree, p: Path)
    requires Layers(before, plan, t1, t2, t3, t4, after)
    ensures Retired(before, p) ==> p !in after
    ensures !Retired(before, p) ==> SameAt(Finalized(t4, plan), after, p)
    ensures !Closing(before, plan, p) ==> SameAt(t3, after, p)
  {
    hide PlanMoves, ApplyMoves, ApplyEntries, ApplyChanges, RemoveSources, Put;
    var moves := PlanMoves(before, RELOCATIONS);
    if Retired(before, p) {
      var m :| m in moves && Under(m.src, p);
      SourcesGo(Finalized(t4, plan), moves, m, p);
    } else {
      SourcesGoOnly(Finalized(t4, plan), moves, p);
    }
  }

  /** From the old tree to the acceptance files. */
  lemma FrontAt(before: Tree, plan: Plan, t1: Tree, t2: Tree, p: Path)
    requires Front(before, plan, t1, t2) && plan.Valid()
    ensures !Relocated(before, plan, p) ==> SameAt(before, t1, p)
    ensures Relocated(before, plan, p) && IsEvent(plan, p) ==> HasFile(t1, p, plan.event.value.data)
    ensures Relocated(before, plan, p) && !IsEvent(plan, p) ==> SameAt(ApplyMoves(before, PlanMoves(before, RELOCATIONS)), t1, p)
    ensures Compiles(plan.entries, plan.compiled, p) ==> SameAt(plan.compiled.Output(), t2, p)
    ensures !Compiles(plan.entries, plan.compiled, p) ==> SameAt(CopyEntries(t1, plan.entries), t2, p)
    ensures !Entered(plan.entries, p) ==> SameAt(t1, CopyEntries(t1, plan.entries), p)
  {
    hide PlanMoves, ApplyMoves, ApplyChanges, RemoveSources, CopyEntries, EditState, Finalized;
    var moves := PlanMoves(before, RELOCATIONS);
    if moves != [] && !Relocated(before, plan, p) { MovesStayInside(before, moves, p); }
    if !Entered(plan.entries, p) { UnenteredStays(t1, plan.entries, p); }
  }

  /** A committed update leaves what was planned. */
  lemma UpdateLeaves(before: Tree, plan: Plan, after: Tree)
    requires plan.Valid() && Updated(before, plan) == Some(after)
    ensures AsPlanned(before, plan, after) && plan.valid
  {
    hide *;
    var t1, t2, t3, t4 := HasLayers(before, plan, after);
    EndStands(before, plan, t1, t2, t3, t4, after);
    ChangesLeft(before, plan, t1, t2, t3, t4, after);
    StateLeft(before, plan, t1, t2, t3, t4, after);
    BackupsLeft(before, plan, t1, t2, t3, t4, after);
    FilesLeft(before, plan, t1, t2, t3, t4, after);
    EntriesLeft(before, plan, t1, t2, t3, t4, after);
    RelocationLeft(before, plan, t1, t2, t3, t4, after);
    Gathered(before, plan, after);
  }

  lemma Gathered(before: Tree, plan: Plan, after: Tree)
    requires LegacyGone(before, after) && ManifestsStand(before, plan, after) && StateStands(before, plan, after)
    requires ChangesStand(before, plan, after) && BackupsStand(before, plan, after) && CompilerStands(before, plan, after)
    requires EntriesStand(before, plan, after) && RelocationStands(before, plan, after) && RestStands(before, plan, after)
    ensures AsPlanned(before, plan, after)
  {
  }

  lemma EndStands(before: Tree, plan: Plan, t1: Tree, t2: Tree, t3: Tree, t4: Tree, after: Tree)
    requires Layers(before, plan, t1, t2, t3, t4, after)
    ensures LegacyGone(before, after) && ManifestsStand(before, plan, after)
  {
    hide Layers, Front, Retired;
    forall p | Retired(before, p) ensures p !in after { EndAt(before, plan, t1, t2, t3, t4, after, p); }
    EndAt(before, plan, t1, t2, t3, t4, after, plan.record.path);
    EndAt(before, plan, t1, t2, t3, t4, after, plan.legacy.path);
  }

  lemma ChangesLeft(before: Tree, plan: Plan, t1: Tree, t2: Tree, t3: Tree, t4: Tree, after: Tree)
    requires Layers(before, plan, t1, t2, t3, t4, after)
    ensures ChangesStand(before, plan, after)
  {
    LayersChange(before, plan, t1, t2, t3, t4, after);
    hide Layers, Front, Closing, ApplyChanges;
    forall i | 0 <= i < |plan.changes| && LastFor(plan.changes, i) && !Closing(before, plan, plan.changes[i].path)
      ensures HasFile(after, plan.changes[i].path, plan.changes[i].migrated)
    {
      LastChange(t2, plan.changes, t3, i);
      EndAt(before, plan, t1, t2, t3, t4, after, plan.changes[i].path);
    }
  }

  lemma LayersChange(before: Tree, plan: Plan, t1: Tree, t2: Tree, t3: Tree, t4: Tree, after: Tree)
    requires Layers(before, plan, t1, t2, t3, t4, after)
    ensures Front(before, plan, t1, t2)
    ensures ApplyChanges(t2, plan.changes) == Some(t3) && EditState(t3, plan.state) == Some(t4)
  {
    hide PlanMoves, ApplyMoves, ApplyEntries, ApplyChanges, EditState, Finalized, RemoveSources, Put;
  }

  /** Nothing has happened to such a file before the project state's edit. */
  lemma UntouchedAt(before: Tree, plan: Plan, t1: Tree, t2: Tree, t3: Tree, p: Path)
    requires Front(before, plan, t1, t2) && ApplyChanges(t2, plan.changes) == Some(t3) && plan.Valid()
    ensures !Early(before, plan, p) ==> SameAt(before, t2, p)
    ensures Untouched(before, plan, p) ==> SameAt(before, t3, p)
  {
    hide Front, ApplyChanges, CopyEntries, Relocated, Entered, Compiles, Changed, BackedUp;
    FrontAt(before, plan, t1, t2, p);
    UnchangedStays(t2, plan.changes, t3, p);
  }

  lemma StateLeft(before: Tree, plan: Plan, t1: Tree, t2: Tree, t3: Tree, t4: Tree, after: Tree)
    requires Layers(before, plan, t1, t2, t3, t4, after) && plan.Valid()
    ensures StateStands(before, plan, after)
  {
    LayersChange(before, plan, t1, t2, t3, t4, after);
    if plan.state.Some? {
      var p := plan.state.value.path;
      hide Layers, Front, ApplyChanges, Retired, Untouched;
      EndAt(before, plan, t1, t2, t3, t4, after, p);
      UntouchedAt(before, plan, t1, t2, t3, p);
      forall i | 0 <= i < |plan.changes| && plan.changes[i].path == p && LastFor(plan.changes, i)
        ensures HasFile(t3, p, plan.changes[i].migrated)
      {
        LastChange(t2, plan.changes, t3, i);
      }
    }
  }

  lemma BackupsLeft(before: Tree, plan: Plan, t1: Tree, t2: Tree, t3: Tree, t4: Tree, after: Tree)
    requires Layers(before, plan, t1, t2, t3, t4, after) && plan.Valid()
    ensures BackupsStand(before, plan, after)
  {
    LayersChange(before, plan, t1, t2, t3, t4, after);
    hide Layers, Front, ApplyChanges, Closing, Early, Untouched, Changed;
    forall i | 0 <= i < |plan.changes| && FirstFor(plan.changes, i)
      ensures var (p, b) := (plan.changes[i].path, plan.changes[i].backup);
        (p in before && !Early(before, plan, p) && b !in before && !Early(before, plan, b)
         && !Closing(before, plan, b) && !Changed(plan.changes, b)) ==> HasFile(after, b, before[p])
    {
      var p, b := plan.changes[i].path, plan.changes[i].backup;
      UntouchedAt(before, plan, t1, t2, t3, p);
      UntouchedAt(before, plan, t1, t2, t3, b);
      EndAt(before, plan, t1, t2, t3, t4, after, b);
      if p in before && !Early(before, plan, p) && b !in before && !Early(before, plan, b) && !Changed(plan.changes, b) {
        FirstBackup(t2, plan.changes, t3, i);
      }
    }
  }

  /** A path that nobody writes behind the entries. */
  lemma UncoveredAt(before: Tree, plan: Plan, t1: Tree, t2: Tree, t3: Tree, t4: Tree, after: Tree, p: Path)
    requires Layers(before, plan, t1, t2, t3, t4, after) && plan.Valid()
    ensures !Covered(before, plan, p) && (p in CopyEntries(t1, plan.entries) || !BackedUp(plan.changes, p)) ==>
      SameAt(CopyEntries(t1, plan.entries), after, p)
  {
    hide Layers, Front, ApplyChanges, CopyEntries, Closing, Changed, BackedUp, Compiles, Relocated, Entered;
    LayersChange(before, plan, t1, t2, t3, t4, after);
    FrontAt(before, plan, t1, t2, p);
    UnchangedStays(t2, plan.changes, t3, p);
    EndAt(before, plan, t1, t2, t3, t4, after, p);
  }

  lemma FilesLeft(before: Tree, plan: Plan, t1: Tree, t2: Tree, t3: Tree, t4: Tree, after: Tree)
    requires Layers(before, plan, t1, t2, t3, t4, after) && plan.Valid()
    ensures CompilerStands(before, plan, after) && RestStands(before, plan, after)
  {
    LayersChange(before, plan, t1, t2, t3, t4, after);
    NoBackupCompiled(plan);
    hide Layers, Front, ApplyChanges, CopyEntries, Closing, Changed, BackedUp, Compiles, Relocated, Entered, Untouched, Plan.Valid;
    forall p | Compiles(plan.entries, plan.compiled, p) && !Closing(before, plan, p) && !Changed(plan.changes, p)
      ensures SameAt(plan.compiled.Output(), after, p)
    {
      FrontAt(before, plan, t1, t2, p);
      UnchangedStays(t2, plan.changes, t3, p);
      EndAt(before, plan, t1, t2, t3, t4, after, p);
    }
    forall p | Untouched(before, plan, p) && !Closing(before, plan, p) ensures SameAt(before, after, p) {
      UntouchedAt(before, plan, t1, t2, t3, p);
      EndAt(before, plan, t1, t2, t3, t4, after, p);
    }
  }

  lemma NoBackupCompiled(plan: Plan)
    requires plan.Valid()
    ensures forall p :: Compiles(plan.entries, plan.compiled, p) ==> !BackedUp(plan.changes, p)
  {
    hide Generates;
  }

  lemma EntriesLeft(before: Tree, plan: Plan, t1: Tree, t2: Tree, t3: Tree, t4: Tree, after: Tree)
    requires Layers(before, plan, t1, t2, t3, t4, after) && plan.Valid()
    ensures EntriesStand(before, plan, after)
  {
    LayersChange(before, plan, t1, t2, t3, t4, after);
    hide Layers, Front, ApplyChanges, CopyEntries, Covered, BackedUp, Relocated, Merged, Plan.Valid;
    var now := CopyEntries(t1, plan.entries);
    forall i | 0 <= i < |plan.entries| && !Covered(before, plan, plan.entries[i].dest)
      ensures var e := plan.entries[i];
        && (e.Copy? && IsLast(plan.entries, i) ==> HasFile(after, e.dest, e.data))
        && (e.Agents? && IsOnly(plan.entries, i) && !Relocated(before, plan, e.dest) ==> Merged(before, after, e.dest, e.body))
    {
      var e := plan.entries[i];
      UncoveredAt(before, plan, t1, t2, t3, t4, after, e.dest);
      if e.Copy? && IsLast(plan.entries, i) { LastEntry(t1, plan.entries, i); }
      if e.Agents? && IsOnly(plan.entries, i) && !Relocated(before, plan, e.dest) {
        OnlyEntryMerges(t1, plan.entries, i);
        FrontAt(before, plan, t1, t2, e.dest);
        MergedSame(t1, now, before, after, e.dest, e.body);
      }
    }
  }

  lemma MergedSame(t: Tree, now: Tree, before: Tree, after: Tree, p: Path, body: string)
    requires Merged(t, now, p, body) && SameAt(before, t, p)
    ensures p in now
    ensures SameAt(now, after, p) ==> Merged(before, after, p, body)
  {
    hide M.Written, M.Extract, M.WellOrdered, Contains;
  }

  lemma RelocationLeft(before: Tree, plan: Plan, t1: Tree, t2: Tree, t3: Tree, t4: Tree, after: Tree)
    requires Layers(before, plan, t1, t2, t3, t4, after) && plan.Valid()
    ensures RelocationStands(before, plan, after)
  {
    LayersChange(before, plan, t1, t2, t3, t4, after);
    hide Layers, Front, ApplyChanges, CopyEntries, Covered, Relocated, Entered, BackedUp, PlanMoves, ApplyMoves, Plan.Valid;
    forall p | Relocated(before, plan, p) && !Covered(before, plan, p) && !Entered(plan.entries, p)
      ensures var moved := ApplyMoves(before, PlanMoves(before, RELOCATIONS));
        if IsEvent(plan, p) then HasFile(after, p, plan.event.value.data)
        else SameAt(moved, after, p) || (p !in moved && BackedUp(plan.changes, p))
    {
      FrontAt(before, plan, t1, t2, p);
      UncoveredAt(before, plan, t1, t2, t3, t4, after, p);
    }
  }

  // ------------------------------------------------------ when no step refuses

  /** A file stands at `p` in front of the acceptance files. */
  predicate Stands(before: Tree, plan: Plan, p: Path) {
    if Compiles(plan.entries, plan.compiled, p) then p in plan.compiled.staged || p == plan.compiled.hooks
    else
      || Entered(plan.entries, p) || (Relocated(before, plan, p) && IsEvent(plan, p))
      || p in ApplyMoves(before, PlanMoves(before, RELOCATIONS))
  }

  /** Every file to be changed is there, or is a backup made, or changed, before. */
  predicate AllThere(before: Tree, plan: Plan) {
    forall i :: 0 <= i < |plan.changes| ==>
      Stands(before, plan, plan.changes[i].path) || LeftEarlier(plan.changes, i)
  }

  /** The project state's text to edit is the old one or a migrated one. */
  predicate StatePlain(before: Tree, plan: Plan) {
    plan.state.Some? ==> Untouched(before, plan, plan.state.value.path) || Changed(plan.changes, plan.state.value.path)
  }

  ghost predicate StateEditable(before: Tree, plan: Plan) {
    plan.state.Some? ==>
      var (p, edit) := (plan.state.value.path, plan.state.value.edit);
      && (Untouched(before, plan, p) ==> p in before && edit(before[p]).Some?)
      && (forall i :: 0 <= i < |plan.changes| && plan.changes[i].path == p && LastFor(plan.changes, i) ==>
            edit(plan.changes[i].migrated).Some?)
  }

  /** When no step of the update refuses. */
  ghost predicate Possible(before: Tree, plan: Plan) {
    plan.valid && AllThere(before, plan) && StateEditable(before, plan)
  }

  /** An earlier change leaves a file at the path of change `i`. */
  predicate LeftEarlier(changes: seq<Change>, i: nat)
    requires i < |changes|
  {
    exists j :: 0 <= j < i && changes[i].path in {changes[j].path, changes[j].backup}
  }

  lemma LeftEarlierIn(changes: seq<Change>, n: nat, i: nat)
    requires i < n <= |changes|
    ensures LeftEarlier(changes[..n], i) <==> LeftEarlier(changes, i)
    ensures LeftEarlier(changes, i) <==> Changed(changes[..i], changes[i].path) || BackedUp(changes[..i], changes[i].path)
  {
    var p := changes[i].path;
    assert changes[..n][i] == changes[i];
    if LeftEarlier(changes, i) {
      var j :| 0 <= j < i && p in {changes[j].path, changes[j].backup};
      assert changes[..n][j] == changes[j] == changes[..i][j];
    }
    if c :| c in changes[..i] && p in {c.path, c.backup} {
      var j :| 0 <= j < i && changes[..i][j] == c;
      assert changes[j] == c;
    }
  }

  lemma ChangedMore(changes: seq<Change>, p: Path)
    requires changes != []
    ensures var n := |changes| - 1;
      && (Changed(changes, p) <==> Changed(changes[..n], p) || changes[n].path == p)
      && (BackedUp(changes, p) <==> BackedUp(changes[..n], p) || changes[n].backup == p)
  {
    assert changes == changes[..|changes| - 1] + [changes[|changes| - 1]];
  }

  /** The changed files go through exactly when each is there by its turn. */
  lemma {:induction false} ChangesApply(t: Tree, changes: seq<Change>)
    ensures ApplyChanges(t, changes).Some? <==>
      forall i :: 0 <= i < |changes| ==> changes[i].path in t || LeftEarlier(changes, i)
    ensures ApplyChanges(t, changes).Some? ==>
      forall p :: p in ApplyChanges(t, changes).value <==> p in t || Changed(changes, p) || BackedUp(changes, p)
  {
    hide LeftEarlier, Changed, BackedUp, ApplyChange;
    if changes == [] {
      NoChanges(t);
    } else {
      var n := |changes| - 1;
      ChangesApply(t, changes[..n]);
      forall i | 0 <= i < n
        ensures changes[..n][i].path in t || LeftEarlier(changes[..n], i) <==> changes[i].path in t || LeftEarlier(changes, i)
      {
        LeftEarlierIn(changes, n, i);
      }
      LeftEarlierIn(changes, n + 1, n);
      LastApplies(t, changes);
    }
  }

  lemma NoChanges(t: Tree)
    ensures ApplyChanges(t, []) == Some(t) && forall p :: !Changed([], p) && !BackedUp([], p)
  {
  }

  lemma LastApplies(t: Tree, changes: seq<Change>)
    requires changes != []
    ensures var n := |changes| - 1;
      var before := ApplyChanges(t, changes[..n]);
      && (ApplyChanges(t, changes).Some? <==> before.Some? && changes[n].path in before.value)
      && (ApplyChanges(t, changes).Some? ==>
            forall p :: p in ApplyChanges(t, changes).value <==> p in before.value || p == changes[n].path || p == changes[n].backup)
    ensures forall p :: Changed(changes, p) <==> Changed(changes[..|changes| - 1], p) || changes[|changes| - 1].path == p
    ensures forall p :: BackedUp(changes, p) <==> BackedUp(changes[..|changes| - 1], p) || changes[|changes| - 1].backup == p
  {
    hide Changed, BackedUp;
    forall p
      ensures Changed(changes, p) <==> Changed(changes[..|changes| - 1], p) || changes[|changes| - 1].path == p
      ensures BackedUp(changes, p) <==> BackedUp(changes[..|changes| - 1], p) || changes[|changes| - 1].backup == p
    {
      ChangedMore(changes, p);
    }
  }

  lemma EnteredMore(entries: seq<Entry>, p: Path)
    requires entries != []
    ensures Entered(entries, p) <==> Entered(entries[..|entries| - 1], p) || Writes(entries[|entries| - 1], p)
  {
    assert entries == entries[..|entries| - 1] + [entries[|entries| - 1]];
  }

  lemma {:induction false} EnteredIsThere(t: Tree, entries: seq<Entry>, p: Path)
    ensures p in CopyEntries(t, entries) <==> p in t || Entered(entries, p)
  {
    if entries != [] {
      var n := |entries| - 1;
      EnteredIsThere(t, entries[..n], p);
      EnteredMore(entries, p);
      hide Entered, M.Written;
    }
  }

  lemma StandsIff(before: Tree, plan: Plan, t1: Tree, t2: Tree, p: Path)
    requires Front(before, plan, t1, t2) && plan.Valid()
    ensures p in t2 <==> Stands(before, plan, p)
  {
    FrontAt(before, plan, t1, t2, p);
    EnteredIsThere(t1, plan.entries, p);
    hide Front, CopyEntries, Entered, Compiles, PlanMoves, ApplyMoves;
    if !Relocated(before, plan, p) { UnmovedStays(before, plan, p); }
  }

  lemma UnmovedStays(before: Tree, plan: Plan, p: Path)
    requires !Relocated(before, plan, p)
    ensures SameAt(before, ApplyMoves(before, PlanMoves(before, RELOCATIONS)), p)
  {
    hide PlanMoves;
    var moves := PlanMoves(before, RELOCATIONS);
    if moves != [] { MovesStayInside(before, moves, p); }
  }

  /** No step refuses exactly when this can be told from the old tree and the plan. */
  lemma UpdatesIff(before: Tree, plan: Plan)
    requires plan.Valid()
    ensures Updated(before, plan).Some? ==> Possible(before, plan)
    ensures StatePlain(before, plan) && Possible(before, plan) ==> Updated(before, plan).Some?
  {
    hide PlanMoves, ApplyMoves, ApplyEntries, ApplyChanges, Finalized, RemoveSources, Put, Untouched, Changed;
    var moves := PlanMoves(before, RELOCATIONS);
    var t1 := if moves == [] then before else Put(ApplyMoves(before, moves), plan.event);
    var t2 := ApplyEntries(t1, plan);
    ThereIff(before, plan, t1, t2);
    if ApplyChanges(t2, plan.changes).Some? {
      StateIff(before, plan, t1, t2, ApplyChanges(t2, plan.changes).value);
    }
  }

  lemma ThereIff(before: Tree, plan: Plan, t1: Tree, t2: Tree)
    requires Front(before, plan, t1, t2) && plan.Valid()
    ensures ApplyChanges(t2, plan.changes).Some? <==> AllThere(before, plan)
  {
    ChangesApply(t2, plan.changes);
    hide Front, ApplyChanges, Stands, LeftEarlier;
    forall i | 0 <= i < |plan.changes|
      ensures plan.changes[i].path in t2 <==> Stands(before, plan, plan.changes[i].path)
    {
      StandsIff(before, plan, t1, t2, plan.changes[i].path);
    }
  }

  lemma StateIff(before: Tree, plan: Plan, t1: Tree, t2: Tree, t3: Tree)
    requires Front(before, plan, t1, t2) && ApplyChanges(t2, plan.changes) == Some(t3) && plan.Valid()
    ensures EditState(t3, plan.state).Some? ==> StateEditable(before, plan)
    ensures StatePlain(before, plan) && StateEditable(before, plan) ==> EditState(t3, plan.state).Some?
  {
    hide Front, ApplyChanges, Untouched, Changed;
    if plan.state.Some? {
      var p := plan.state.value.path;
      UntouchedAt(before, plan, t1, t2, t3, p);
      forall i | 0 <= i < |plan.changes| && plan.changes[i].path == p && LastFor(plan.changes, i)
        ensures HasFile(t3, p, plan.changes[i].migrated)
      {
        LastChange(t2, plan.changes, t3, i);
      }
      if Changed(plan.changes, p) { var i := LastOf(plan.changes, p); }
    }
  }

  lemma {:induction false} LastOf(changes: seq<Change>, p: Path) returns (i: nat)
    requires Changed(changes, p)
    ensures i < |changes| && changes[i].path == p && LastFor(changes, i)
  {
    var n := |changes| - 1;
    ChangedMore(changes, p);
    if changes[n].path == p {
      i := n;
    } else {
      i := LastOf(changes[..n], p);
      assert forall j :: i < j < n ==> changes[..n][j] == changes[j];
    }
  }
}
