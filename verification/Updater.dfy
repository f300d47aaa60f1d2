/** `run_update` on a disk whose operations may fail anywhere: a failed write may
    leave anything in the file it was writing, a failed copy anything below its
    destination. Reading back the snapshot is taken to succeed. */
module Updater {
  import opened Text
  import opened Trees
  import opened Layout
  import opened Installer
  import opened InstallerResults
  import M = ManagedBlock

  /** One more write inside the frame keeps everything outside of it. */
  lemma Chain(start: Tree, was: Tree, now: Tree, p: Path, frame: Path -> bool)
    requires frame(p)
    requires forall q :: frame(q) || SameAt(start, was, q)
    requires forall q :: q == p || SameAt(was, now, q)
    ensures forall q :: frame(q) || SameAt(start, now, q)
  {
    forall q ensures frame(q) || SameAt(start, now, q) {
      assert frame(q) || SameAt(start, was, q);
      assert q == p || SameAt(was, now, q);
    }
  }

  predicate ChangeFrame(start: Tree, changes: seq<Change>, p: Path) {
    exists c :: c in changes && (c.path == p || (p !in start && c.backup == p))
  }

  /** How far the replacement of the compiled directory has come. */
  datatype Replacement = NotBegun | Torn | Replaced

  class Disk {
    var files: Tree
    /** Some operation has failed. */
    ghost var faulty: bool
    /** Set by the compiler only. */
    ghost var replacement: Replacement

    constructor (files: Tree)
      ensures this.files == files && !faulty && replacement == NotBegun
    {
      this.files, faulty, replacement := files, false, NotBegun;
    }

    method Put(p: Path, data: string) returns (ok: bool)
      modifies `files, `faulty
      ensures faulty == (old(faulty) || !ok)
      ensures ok ==> files == old(files)[p := data]
      ensures p in old(files) ==> p in files
      ensures forall q :: q == p || SameAt(old(files), files, q)
    {
      ok := *;
      faulty := faulty || !ok;
      var half: Option<string> := *;
      files := if ok then files[p := data]
               else if half.Some? then files[p := half.value] else files;
    }

    method CopyTree(src: Path, dst: Path) returns (ok: bool)
      modifies `files, `faulty
      ensures faulty == (old(faulty) || !ok)
      ensures ok ==> files == Copied(old(files), src, dst)
      ensures forall q :: Under(dst, q) || SameAt(old(files), files, q)
    {
      var todo := Images(files, src, dst);
      ghost var all, start := todo, files;
      var source := files;
      while todo != {}
        invariant todo <= all && source == start && faulty == old(faulty)
        invariant forall q :: Under(dst, q) || SameAt(start, files, q)
        invariant forall q :: q !in all || q in todo ==> SameAt(start, files, q)
        invariant forall q :: q in all - todo ==> q in files && files[q] == start[Image(dst, src, q)]
      {
        var q :| q in todo;
        ghost var was := files;
        ok := Put(q, source[Image(dst, src, q)]);
        forall r | !Under(dst, r) ensures SameAt(start, files, r) {
          assert SameAt(start, was, r) && SameAt(was, files, r);
        }
        if !ok { return; }
        todo := todo - {q};
      }
      assert files == Copied(start, src, dst);
      ok := true;
    }

    method RemoveTree(dir: Path) returns (ok: bool)
      modifies `files, `faulty
      ensures faulty == (old(faulty) || !ok)
      ensures ok ==> files == Removed(old(files), dir)
      ensures PartlyRemoved(old(files), dir, files)
    {
      ok := *;
      faulty := faulty || !ok;
      var some: set<Path> := *;
      files := if ok then Removed(files, dir) else map p | p in files && !(p in some && Under(dir, p)) :: files[p];
    }

    // ------------------------------------------------ snapshot and rollback

    /** Keeps a copy of those of `paths` that exist. */
    method CreateSnapshot(paths: seq<Path>) returns (backup: Tree)
      ensures backup == map p | p in files && p in paths :: files[p]
    {
      backup := map[];
      for i := 0 to |paths|
        invariant backup == map p | p in files && p in paths[..i] :: files[p]
      {
        if paths[i] in files {
          backup := backup[paths[i] := files[paths[i]]];
        }
      }
    }

    /** Puts every path back, the deepest first: copied from the backup if it
        existed, deleted if not. */
    method RollbackPaths(paths: seq<Path>, backup: Tree, ghost before: Tree)
      requires backup == map p | p in before && p in paths :: before[p]
      modifies `files
      ensures files == Restored(before, set p | p in paths, old(files))
    {
      var todo := set p | p in paths;
      ghost var all := todo;
      assert forall p :: p in all ==> (p in backup <==> p in before) && (p in before ==> backup[p] == before[p]);
      while todo != {}
        invariant todo <= all
        invariant forall p :: p !in all || p in todo ==> SameAt(old(files), files, p)
        invariant forall p :: p in all - todo ==> SameAt(before, files, p)
      {
        DeepestExists(todo);
        var p :| p in todo && forall q :: q in todo ==> |q| <= |p|;
        ghost var was := files;
        if p in backup {
          files := files[p := backup[p]];
        } else if p in files {
          files := map q | q in files && q != p :: files[q];
        }
        assert SameAt(before, files, p);
        assert forall q :: q == p || SameAt(was, files, q);
        forall q | q in all - (todo - {p}) ensures SameAt(before, files, q) {
          assert q != p ==> q in all - todo && SameAt(before, was, q);
        }
        todo := todo - {p};
      }
      ghost var goal := Restored(before, all, old(files));
      forall p ensures SameAt(goal, files, p) {
        if p in all { assert p in all - todo; } else { assert SameAt(old(files), files, p); }
      }
      SameEverywhere(goal, files);
    }

    method ClearMoved(moves: seq<Relocation>)
      modifies `files
      ensures files == ClearPlaces(old(files), moves)
    {
      for i := 0 to |moves|
        invariant files == ClearPlaces(old(files), moves[..i])
      {
        files := Removed(files, moves[i].dst);
        assert moves[..i + 1] == moves[..i] + [moves[i]];
        assert files == ClearPlaces(old(files), moves[..i + 1]);
      }
      assert moves[..|moves|] == moves;
    }
  
    // ------------------------------------------------------------ the steps

    method ApplyLayoutMigration(moves: seq<Relocation>, event: Option<Write>) returns (ok: bool)
      modifies `files, `faulty
      ensures faulty == (old(faulty) || !ok)
      ensures ok ==> files == Installer.Put(ApplyMoves(old(files), moves), event)
      ensures forall p :: UnderSome(moves, p) || (event.Some? && p == event.value.path) || SameAt(old(files), files, p)
    {
      for i := 0 to |moves|
        invariant files == ApplyMoves(old(files), moves[..i]) && faulty == old(faulty)
      {
        assert moves[..i + 1][..i] == moves[..i];
        if !Exists(files, moves[i].dst) {
          ghost var was := files;
          ok := CopyTree(moves[i].src, moves[i].dst);
          if !ok {
            InterruptedMoves(old(files), moves, i, was, files);
            return;
          }
        }
      }
      assert moves[..|moves|] == moves;
      ghost var moved := files;
      if event.Some? {
        ok := Put(event.value.path, event.value.data);
      } else {
        ok := true;
      }
      forall p | !UnderSome(moves, p) && !(event.Some? && p == event.value.path) ensures SameAt(old(files), files, p) {
        MovesStayInside(old(files), moves, p);
        assert SameAt(moved, files, p);
      }
    }

    method CopyOne(e: Entry) returns (ok: bool)
      modifies `files, `faulty
      ensures faulty == (old(faulty) || !ok)
      ensures ok ==> files == CopyEntry(old(files), e)
      ensures forall q :: q == e.dest || SameAt(old(files), files, q)
    {
      match e
      case Generated(_) =>
        ok := true;
      case Copy(dest, data) =>
        ok := Put(dest, data);
      case Agents(dest, body) =>
        ok := Put(dest, M.Written(M.GOVERNED, if dest in files then Some(files[dest]) else None, body));
    }

    method ApplyCopyEntries(entries: seq<Entry>, compiled: Compiled) returns (ok: bool)
      requires compiled.Valid() && replacement == NotBegun
      modifies this
      ensures faulty == (old(faulty) || !ok)
      ensures ok ==> files == if Generates(entries) then Materialized(CopyEntries(old(files), entries), compiled)
                              else CopyEntries(old(files), entries)
      ensures ok ==> replacement == if Generates(entries) then Replaced else NotBegun
      ensures !ok ==> replacement != Replaced
      ensures replacement == NotBegun ==> forall p :: p in Dests(entries) || SameAt(old(files), files, p)
      ensures replacement == Torn ==> Generates(entries) && Interrupted(CopyEntries(old(files), entries), compiled, files)
    {
      hide CopyEntry, Dests, Interrupted;
      var generates := false;
      ghost var start := files;
      for i := 0 to |entries|
        invariant files == CopyEntries(start, entries[..i]) && replacement == NotBegun
        invariant generates == Generates(entries[..i]) && faulty == old(faulty)
        invariant forall p :: p in Dests(entries) || SameAt(start, files, p)
      {
        NextEntry(start, entries, i);
        ghost var was := files;
        ok := CopyOne(entries[i]);
        Chain(start, was, files, entries[i].dest, p => p in Dests(entries));
        if !ok {
          return;
        }
        generates := generates || entries[i].Generated?;
      }
      assert entries[..|entries|] == entries;
      ok := true;
      if generates {
        ok := Materialize(compiled);
      }
    }

    /** The adapter compiler: the directory is removed, copied anew, and its hook
        file rewritten. */
    method Materialize(c: Compiled) returns (ok: bool)
      requires c.Valid()
      modifies this
      ensures faulty == (old(faulty) || !ok)
      ensures ok ==> files == Materialized(old(files), c) && replacement == Replaced
      ensures !ok ==> replacement == Torn && Interrupted(old(files), c, files)
    {
      ghost var start := files;
      replacement := Torn;
      ok := RemoveTree(c.dir);
      if !ok { return; }
      ghost var bare := files;
      ghost var done, half;
      ghost var at: Path;
      ok, done, at, half := CopyStaged(c);
      if !ok {
        assert PartlyCopied(start, c, files, done, at, half);
        return;
      }
      ghost var was := files;
      assert was == bare + Part(c.staged, c.staged.Keys);
      ok, half := PutHalf(c.hooks, c.hooksText);
      if ok {
        replacement := Replaced;
        assert files == bare + c.Output();
      } else {
        assert PartlyCopied(start, c, files, c.staged.Keys, c.hooks, half);
      }
    }

    /** A write whose failure tells what it left. */
    method PutHalf(p: Path, data: string) returns (ok: bool, ghost half: Option<string>)
      modifies `files, `faulty
      ensures faulty == (old(faulty) || !ok)
      ensures files == if ok then old(files)[p := data] else WithHalf(old(files), p, half)
    {
      ghost var start := files;
      ok := Put(p, data);
      half := if p in files then Some(files[p]) else None;
      LeftHalf(start, files, p);
    }

    method CopyStaged(c: Compiled) returns (ok: bool, ghost done: set<Path>, ghost at: Path, ghost half: Option<string>)
      requires c.Valid()
      modifies `files, `faulty
      ensures faulty == (old(faulty) || !ok)
      ensures ok ==> files == old(files) + c.staged
      ensures !ok ==> done <= c.staged.Keys && at in c.staged.Keys - done
      ensures !ok ==> files == WithHalf(old(files) + Part(c.staged, done), at, half)
    {
      ghost var start := files;
      done, at, half := {}, [], None;
      var todo := c.staged.Keys;
      while todo != {}
        invariant todo !! done && todo + done == c.staged.Keys && faulty == old(faulty)
        invariant files == start + Part(c.staged, done)
      {
        var p :| p in todo;
        at := p;
        ok, half := PutHalf(p, c.staged[p]);
        if !ok { return; }
        todo, done := todo - {p}, done + {p};
      }
      assert Part(c.staged, done) == c.staged;
      ok := true;
    }

    method ApplyAcceptanceChanges(changes: seq<Change>) returns (ok: bool)
      modifies `files, `faulty
      ensures ok ==> ApplyChanges(old(files), changes) == Some(files) && faulty == old(faulty)
      ensures !ok ==> faulty || ApplyChanges(old(files), changes) == None
      ensures forall p :: ChangeFrame(old(files), changes, p) || SameAt(old(files), files, p)
    {
      ghost var start := files;
      for i := 0 to |changes|
        invariant ApplyChanges(start, changes[..i]) == Some(files) && faulty == old(faulty)
        invariant forall p :: ChangeFrame(start, changes, p) || SameAt(start, files, p)
      {
        assert changes[..i + 1][..i] == changes[..i];
        ghost var was := files;
        ok := ChangeOne(changes[i]);
        forall p ensures ChangeFrame(start, changes, p) || SameAt(start, files, p) {
          assert ChangeFrame(start, changes, p) || SameAt(start, was, p);
          assert p == changes[i].path || (p !in was && p == changes[i].backup) || SameAt(was, files, p);
          assert changes[i] in changes;
        }
        if !ok {
          if !faulty { MissingFileStops(start, changes, i + 1); }
          return;
        }
      }
      assert changes[..|changes|] == changes;
      ok := true;
    }

    method ChangeOne(c: Change) returns (ok: bool)
      modifies `files, `faulty
      ensures ok ==> c.path in old(files) && files == ApplyChange(old(files), c) && faulty == old(faulty)
      ensures !ok ==> faulty || c.path !in old(files)
      ensures forall p :: p == c.path || (p !in old(files) && p == c.backup) || SameAt(old(files), files, p)
    {
      if c.path !in files {
        return false;
      }
      ghost var start := files;
      var isNew := c.backup !in files;
      if isNew {
        ok := Put(c.backup, files[c.path]);
        if !ok { return; }
      }
      ghost var was := files;
      ok := Put(c.path, c.migrated);
      Chain(start, was, files, c.path, p => p == c.path || (p !in start && p == c.backup));
    }

    method EditProjectState(state: Option<StateEdit>) returns (ok: bool)
      modifies `files, `faulty
      ensures ok ==> EditState(old(files), state) == Some(files) && faulty == old(faulty)
      ensures !ok ==> faulty || EditState(old(files), state) == None
      ensures forall p :: (state.Some? && p == state.value.path) || SameAt(old(files), files, p)
    {
      if state.None? {
        return true;
      }
      if state.value.path !in files {
        return false;
      }
      var text := state.value.edit(files[state.value.path]);
      if text.None? {
        return false;
      }
      ok := Put(state.value.path, text.value);
    }
  
    // ------------------------------------------------- the whole transaction

    /** Everything that rollback will put back; the list may repeat paths. */
    method CollectTouched(plan: Plan) returns (paths: seq<Path>)
      ensures (set p | p in paths) == Touched(files, plan)
    {
      var places := ListOf(Destinations(files, PlanMoves(files, RELOCATIONS)));
      var changed := ListOf(set c | c in plan.changes :: c.path);
      paths := Dests(plan.entries) + changed
        + (if plan.state.Some? then [plan.state.value.path] else [])
        + [plan.record.path, plan.legacy.path] + places;
    }

    method FinishAndValidate(plan: Plan) returns (ok: bool)
      modifies `files, `faulty
      ensures ok ==> plan.valid && files == Finalized(old(files), plan) && faulty == old(faulty)
      ensures !ok ==> faulty || !plan.valid
      ensures forall p :: p in {plan.legacy.path, plan.record.path} || SameAt(old(files), files, p)
    {
      ghost var start := files;
      ok := Put(plan.legacy.path, plan.legacy.data);
      if !ok { return; }
      ghost var was := files;
      ok := Put(plan.record.path, plan.record.data);
      Chain(start, was, files, plan.record.path, p => p in {plan.legacy.path, plan.record.path});
      ok := ok && plan.valid;
    }

    /** The six steps in order, up to the first that raises. Where they stop tells
        what has become of the compiled directory. */
    method Attempt(plan: Plan) returns (ok: bool, ghost was: Tree)
      requires plan.Valid() && replacement == NotBegun
      modifies this
      ensures ok ==> Stepped(old(files), plan) == Some(files) && faulty == old(faulty)
      ensures !ok ==> faulty || Stepped(old(files), plan) == None
      ensures replacement == NotBegun ==> Tidy(old(files), plan, files)
      ensures replacement == Replaced ==> Generates(plan.entries) && Rebuilt(old(files), plan, files)
      ensures replacement == Torn ==> Generates(plan.entries) && Tidy(old(files), plan, was) && Interrupted(was, plan.compiled, files)
    {
      hide Touched, PlanMoves, ApplyMoves, CopyEntries, Materialized, ApplyChanges, EditState, Finalized,
        Tidy, Rebuilt, Interrupted, ChangeFrame, Dests, Compiled.Output, Generates;
      ghost var start := files;
      was := files;
      var moves := PlanMoves(files, RELOCATIONS);
      ok := true;
      if moves != [] {
        ok := ApplyLayoutMigration(moves, plan.event);
      }
      ghost var t1 := files;
      AfterLayout(start, plan, t1);
      if !ok { return; }
      was := CopyEntries(files, plan.entries);
      ok := ApplyCopyEntries(plan.entries, plan.compiled);
      ghost var t2 := files;
      AfterEntries(start, plan, t1, t2, replacement);
      if !ok { return; }
      ghost var replaced := replacement == Replaced;
      ok := ApplyAcceptanceChanges(plan.changes);
      ghost var t3 := files;
      AfterAcceptance(start, plan, t2, t3, replaced);
      if !ok { return; }
      ok := EditProjectState(plan.state);
      ghost var t4 := files;
      AfterTouched(start, plan, t3, t4, replaced);
      if !ok { return; }
      ok := FinishAndValidate(plan);
      AfterTouched(start, plan, t4, files, replaced);
    }

    /** The update: committed, with every path as planned, or rolled back. Unless an
        operation fails it commits exactly when no step has to refuse. A failure before the compiled
        directory is replaced is undone; one behind that if and only if the
        directory held, and is given, planned files only; and one in between is
        undone if every such file is planned. */
    method RunUpdate(plan: Plan) returns (committed: bool, ghost was: Tree, ghost broken: Tree)
      requires plan.Valid()
      modifies this
      ensures committed ==> !faulty && Updated(old(files), plan) == Some(files)
      ensures committed ==> AsPlanned(old(files), plan, files) && Possible(old(files), plan)
      ensures !committed ==> faulty || Updated(old(files), plan) == None
      ensures !committed && !faulty && StatePlain(old(files), plan) ==> !Possible(old(files), plan)
      ensures !committed ==> files == RolledBack(old(files), plan, broken)
      ensures !committed && replacement == NotBegun ==> Undone(old(files), plan, files)
      ensures !committed && replacement == Replaced ==> (Undone(old(files), plan, files) <==> PlannedOnly(old(files), plan))
      ensures !committed && replacement == Torn ==> Tidy(old(files), plan, was) && Interrupted(was, plan.compiled, broken)
      ensures !committed && AllPlanned(old(files), plan) ==> Undone(old(files), plan, files)
    {
      hide Touched, PlanMoves, Stepped, Tidy, Rebuilt, Interrupted, Undone, PlannedOnly, AllPlanned,
        AsPlanned, Possible, StatePlain;
      UpdatesIff(files, plan);
      replacement, faulty := NotBegun, false;
      var moves := PlanMoves(files, RELOCATIONS);
      var touched := CollectTouched(plan);
      var backup := CreateSnapshot(touched);
      ghost var before := files;
      committed, was := Attempt(plan);
      broken := files;
      if committed {
        files := RemoveSources(files, moves);
        UpdateLeaves(before, plan, files);
      } else {
        RollbackPaths(touched, backup, before);
        ClearMoved(moves);
        match replacement {
          case NotBegun =>
            EarlyFailureUndone(before, plan, broken);
          case Replaced =>
            LateFailureUndoneIff(before, plan, broken);
            PlannedSuffices(before, plan);
          case Torn =>
            if AllPlanned(before, plan) { TornFailureUndone(before, plan, was, broken); }
        }
      }
    }
  }

  lemma PlannedSuffices(before: Tree, plan: Plan)
    ensures AllPlanned(before, plan) ==> PlannedOnly(before, plan)
  {
    hide Settled, Compiled.Output;
  }

  lemma LeftHalf(start: Tree, now: Tree, p: Path)
    requires forall q :: q == p || SameAt(start, now, q)
    requires p in now || p !in start
    ensures now == WithHalf(start, p, if p in now then Some(now[p]) else None)
  {
    var left := WithHalf(start, p, if p in now then Some(now[p]) else None);
    forall q ensures SameAt(now, left, q) {
      assert q == p || SameAt(start, now, q);
    }
    SameEverywhere(now, left);
  }

  lemma {:induction false} MissingFileStops(t: Tree, changes: seq<Change>, k: nat)
    requires k <= |changes| && ApplyChanges(t, changes[..k]) == None
    ensures ApplyChanges(t, changes) == None
    decreases |changes| - k
  {
    if k == |changes| {
      assert changes[..k] == changes;
    } else {
      assert changes[..k + 1][..k] == changes[..k];
      MissingFileStops(t, changes, k + 1);
    }
  }

  method ListOf(s: set<Path>) returns (list: seq<Path>)
    ensures (set p | p in list) == s
  {
    list := [];
    var todo := s;
    while todo != {}
      invariant todo <= s && (set p | p in list) == s - todo
    {
      var p :| p in todo;
      assert (set q | q in list + [p]) == (set q | q in list) + {p};
      list := list + [p];
      todo := todo - {p};
    }
  }

  // -------------------------------------------- frames, one step at a time

  /** What the steps keep, before and behind the replacement. */
  ghost predicate GoodSoFar(start: Tree, plan: Plan, now: Tree, replaced: bool) {
    if replaced then Rebuilt(start, plan, now) else Tidy(start, plan, now)
  }

  lemma AfterLayout(start: Tree, plan: Plan, now: Tree)
    requires forall p :: UnderSome(PlanMoves(start, RELOCATIONS), p) || IsEvent(plan, p) || SameAt(start, now, p)
    ensures Tidy(start, plan, now)
  {
    hide Touched, PlanMoves;
  }

  lemma AfterEntries(start: Tree, plan: Plan, was: Tree, now: Tree, replacement: Replacement)
    requires Tidy(start, plan, was) && plan.Valid()
    requires replacement == NotBegun ==> forall p :: p in Dests(plan.entries) || SameAt(was, now, p)
    requires replacement == Replaced ==> now == Materialized(CopyEntries(was, plan.entries), plan.compiled)
    ensures replacement == NotBegun ==> Tidy(start, plan, now)
    ensures replacement == Replaced ==> Rebuilt(start, plan, now)
    ensures Tidy(start, plan, CopyEntries(was, plan.entries))
  {
    DestsTouched(start, plan);
    var copied := CopyEntries(was, plan.entries);
    forall p ensures p in Dests(plan.entries) || SameAt(was, copied, p) {
      CopiedEntriesFrame(was, plan.entries, p);
    }
    TidyStays(start, plan, was, copied);
    if replacement == NotBegun {
      TidyStays(start, plan, was, now);
    } else if replacement == Replaced {
      hide Touched, PlanMoves, CopyEntries, Dests, Trace, Settled;
      forall p ensures Settled(start, plan, p) || Under(plan.compiled.dir, p) || SameAt(start, now, p) {
        assert Settled(start, plan, p) || SameAt(start, copied, p);
      }
      forall p | Under(plan.compiled.dir, p) ensures SameAt(plan.compiled.Output(), now, p) {
      }
    }
  }

  lemma {:induction false} CopiedEntriesFrame(t: Tree, entries: seq<Entry>, p: Path)
    ensures p in Dests(entries) || SameAt(t, CopyEntries(t, entries), p)
  {
    if entries != [] {
      var n := |entries| - 1;
      CopiedEntriesFrame(t, entries[..n], p);
      assert Dests(entries) == Dests(entries[..n]) + [entries[n].dest];
    }
  }

  lemma TidyStays(start: Tree, plan: Plan, was: Tree, now: Tree)
    requires Tidy(start, plan, was)
    requires forall p :: p in Dests(plan.entries) || SameAt(was, now, p)
    ensures Tidy(start, plan, now)
  {
    DestsTouched(start, plan);
    forall p ensures Settled(start, plan, p) || SameAt(start, now, p) {
      hide Touched, PlanMoves, Trace, Dests;
      assert Settled(start, plan, p) || SameAt(start, was, p);
    }
  }

  lemma DestsTouched(start: Tree, plan: Plan)
    ensures forall p :: p in Dests(plan.entries) ==> p in Touched(start, plan)
    ensures forall c :: c in plan.changes ==> c.path in Touched(start, plan)
    ensures plan.state.Some? ==> plan.state.value.path in Touched(start, plan)
    ensures plan.record.path in Touched(start, plan) && plan.legacy.path in Touched(start, plan)
  {
    hide PlanMoves;
  }

  lemma AfterAcceptance(start: Tree, plan: Plan, was: Tree, now: Tree, replaced: bool)
    requires GoodSoFar(start, plan, was, replaced) && plan.Valid()
    requires forall p :: ChangeFrame(was, plan.changes, p) || SameAt(was, now, p)
    ensures GoodSoFar(start, plan, now, replaced)
  {
    DestsTouched(start, plan);
    forall p | ChangeFrame(was, plan.changes, p) ensures Settled(start, plan, p) {
      hide Touched, PlanMoves, Compiled.Output;
      var c :| c in plan.changes && (c.path == p || (p !in was && c.backup == p));
      if c.path != p && p in start { assert !SameAt(start, was, p); }
    }
    hide Touched, PlanMoves, Compiled.Output, ChangeFrame, Settled;
    GoodStays(start, plan, was, now, replaced);
  }

  lemma GoodStays(start: Tree, plan: Plan, was: Tree, now: Tree, replaced: bool)
    requires GoodSoFar(start, plan, was, replaced)
    requires forall p :: Settled(start, plan, p) || SameAt(was, now, p)
    ensures GoodSoFar(start, plan, now, replaced)
  {
    hide Settled, Compiled.Output;
    if replaced {
      forall p ensures Settled(start, plan, p) || Under(plan.compiled.dir, p) || SameAt(start, now, p) {
        assert Settled(start, plan, p) || Under(plan.compiled.dir, p) || SameAt(start, was, p);
      }
      forall p | Under(plan.compiled.dir, p) ensures Settled(start, plan, p) || SameAt(plan.compiled.Output(), now, p) {
        assert Settled(start, plan, p) || SameAt(plan.compiled.Output(), was, p);
      }
    } else {
      forall p ensures Settled(start, plan, p) || SameAt(start, now, p) {
        assert Settled(start, plan, p) || SameAt(start, was, p);
      }
    }
  }

  lemma AfterTouched(start: Tree, plan: Plan, was: Tree, now: Tree, replaced: bool)
    requires GoodSoFar(start, plan, was, replaced)
    requires forall p :: IsState(plan, p) || p in {plan.legacy.path, plan.record.path} || SameAt(was, now, p)
    ensures GoodSoFar(start, plan, now, replaced)
  {
    DestsTouched(start, plan);
    forall p ensures Settled(start, plan, p) || SameAt(was, now, p) {
      hide Touched, PlanMoves, Trace;
    }
    hide Settled, GoodSoFar, Touched, PlanMoves;
    GoodStays(start, plan, was, now, replaced);
  }

  lemma InterruptedMoves(start: Tree, moves: seq<Relocation>, i: nat, was: Tree, now: Tree)
    requires i < |moves| && was == ApplyMoves(start, moves[..i])
    requires forall q :: Under(moves[i].dst, q) || SameAt(was, now, q)
    ensures forall p :: UnderSome(moves, p) || SameAt(start, now, p)
  {
    forall p | !UnderSome(moves, p) ensures SameAt(start, now, p) {
      assert moves[i] in moves;
      assert !UnderSome(moves[..i], p);
      MovesStayInside(start, moves[..i], p);
    }
  }

  lemma NextEntry(t: Tree, entries: seq<Entry>, i: nat)
    requires i < |entries|
    ensures CopyEntries(t, entries[..i + 1]) == CopyEntry(CopyEntries(t, entries[..i]), entries[i])
    ensures Generates(entries[..i + 1]) <==> Generates(entries[..i]) || entries[i].Generated?
    ensures entries[i].dest in Dests(entries)
  {
    hide CopyEntry, Generates;
    assert entries[..i + 1][..i] == entries[..i];
    assert Dests(entries)[i] == entries[i].dest;
    GeneratesMore(entries, i);
  }

  lemma GeneratesMore(entries: seq<Entry>, i: nat)
    requires i < |entries|
    ensures Generates(entries[..i + 1]) <==> Generates(entries[..i]) || entries[i].Generated?
  {
    assert entries[..i + 1][i] == entries[i];
    assert forall k :: 0 <= k < i ==> entries[..i + 1][k] == entries[..i][k];
    if k :| 0 <= k < i && entries[..i][k].Generated? {
      assert entries[..i + 1][k].Generated?;
    }
  }

  lemma {:induction false} DeepestExists(s: set<Path>)
    requires s != {}
    ensures exists p :: p in s && forall q :: q in s ==> |q| <= |p|
  {
    var p :| p in s;
    if s != {p} {
      DeepestExists(s - {p});
      var d :| d in s - {p} && forall q :: q in s - {p} ==> |q| <= |d|;
      if |p| <= |d| {
        assert forall q :: q in s ==> |q| <= |d|;
      } else {
        assert forall q :: q in s ==> |q| <= |p|;
      }
    }
  }
}
