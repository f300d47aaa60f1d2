/** The update transaction of an installed project: snapshot of the touched
    paths, six steps any of which may raise, rollback or commit. */
module Installer {
  import opened Text
  import opened Trees
  import opened Layout
  import M = ManagedBlock

  /** A planned file: copied, merged into AGENTS.md, or left to the compiler. */
  datatype Entry = Copy(dest: Path, data: string) | Agents(dest: Path, body: string) | Generated(dest: Path)

  /** The output of the adapter compiler, and the hook file it rewrites last. */
  datatype Compiled = Compiled(dir: Path, staged: Tree, hooks: Path, hooksText: string) {
    predicate Valid() {
      Under(dir, hooks) && forall p :: p in staged ==> Under(dir, p)
    }

    function Output(): Tree { staged[hooks := hooksText] }
  }

  datatype Change = Change(path: Path, migrated: string, backup: Path)

  datatype StateEdit = StateEdit(path: Path, edit: string -> Option<string>)

  datatype Write = Write(path: Path, data: string)

  datatype Plan = Plan(
    entries: seq<Entry>, compiled: Compiled, changes: seq<Change>, state: Option<StateEdit>,
    event: Option<Write>, legacy: Write, record: Write, valid: bool)
  {
    /** The compiler keeps to its directory, and nobody keeps backups there. */
    predicate Valid() {
      compiled.Valid() && forall c :: c in changes ==> !Under(compiled.dir, c.backup)
    }
  }

  // ------------------------------------------------------ what each step does

  function Dests(entries: seq<Entry>): seq<Path> {
    seq(|entries|, i requires 0 <= i < |entries| => entries[i].dest)
  }

  predicate Generates(entries: seq<Entry>) {
    exists i :: 0 <= i < |entries| && entries[i].Generated?
  }

  function Put(t: Tree, w: Option<Write>): Tree {
    if w.Some? then t[w.value.path := w.value.data] else t
  }

  function CopyEntry(t: Tree, e: Entry): Tree {
    match e
    case Copy(dest, data) => t[dest := data]
    case Agents(dest, body) =>
      t[dest := M.Written(M.GOVERNED, if dest in t then Some(t[dest]) else None, body)]
    case Generated(_) => t
  }

  function CopyEntries(t: Tree, entries: seq<Entry>): Tree {
    if entries == [] then t
    else CopyEntry(CopyEntries(t, entries[..|entries| - 1]), entries[|entries| - 1])
  }

  function Materialized(t: Tree, c: Compiled): Tree {
    Removed(t, c.dir) + c.Output()
  }

  function ApplyEntries(t: Tree, plan: Plan): Tree {
    var copied := CopyEntries(t, plan.entries);
    if Generates(plan.entries) then Materialized(copied, plan.compiled) else copied
  }

  function ApplyChange(t: Tree, c: Change): Tree
    requires c.path in t
  {
    (if c.backup in t then t else t[c.backup := t[c.path]])[c.path := c.migrated]
  }

  /** The acceptance files migrated, or nothing if one of them is missing. */
  function ApplyChanges(t: Tree, changes: seq<Change>): Option<Tree> {
    if changes == [] then Some(t)
    else
      var n := |changes| - 1;
      var before := ApplyChanges(t, changes[..n]);
      if before.None? || changes[n].path !in before.value then None
      else Some(ApplyChange(before.value, changes[n]))
  }

  function EditState(t: Tree, state: Option<StateEdit>): Option<Tree> {
    if state.None? then Some(t)
    else if state.value.path !in t then None
    else
      var text := state.value.edit(t[state.value.path]);
      if text.None? then None else Some(t[state.value.path := text.value])
  }

  function Finalized(t: Tree, plan: Plan): Tree {
    t[plan.legacy.path := plan.legacy.data][plan.record.path := plan.record.data]
  }

  /** The tree that the six steps leave, if they succeed ... */
  function Stepped(t: Tree, plan: Plan): Option<Tree> {
    var moves := PlanMoves(t, RELOCATIONS);
    var laidOut := if moves == [] then t else Put(ApplyMoves(t, moves), plan.event);
    var changed := ApplyChanges(ApplyEntries(laidOut, plan), plan.changes);
    if changed.None? then None else
    var edited := EditState(changed.value, plan.state);
    if edited.None? || !plan.valid then None else Some(Finalized(edited.value, plan))
  }

  /** ... from which a successful update then removes the old trees. */
  function Updated(t: Tree, plan: Plan): Option<Tree> {
    var stepped := Stepped(t, plan);
    if stepped.None? then None else Some(RemoveSources(stepped.value, PlanMoves(t, RELOCATIONS)))
  }

  // ---------------------------------------------------- what rollback undoes

  /** The paths that are put back one by one. */
  function Touched(t: Tree, plan: Plan): set<Path> {
    (set p | p in Dests(plan.entries)) + (set c | c in plan.changes :: c.path) +
    (if plan.state.Some? then {plan.state.value.path} else {}) +
    {plan.record.path, plan.legacy.path} + Destinations(t, PlanMoves(t, RELOCATIONS))
  }

  function Restored(before: Tree, touched: set<Path>, broken: Tree): Tree {
    map p | p in before.Keys + broken.Keys && (if p in touched then p in before else p in broken) ::
      if p in touched then before[p] else broken[p]
  }

  function ClearPlaces(t: Tree, moves: seq<Relocation>): Tree {
    map p | p in t && !UnderSome(moves, p) :: t[p]
  }

  function RolledBack(before: Tree, plan: Plan, broken: Tree): Tree {
    ClearPlaces(Restored(before, Touched(before, plan), broken), PlanMoves(before, RELOCATIONS))
  }

  /** What an update leaves on purpose: the review event, and backups it made
      of acceptance files. */
  predicate Trace(before: Tree, plan: Plan, p: Path) {
    || (plan.event.Some? && p == plan.event.value.path)
    || (p !in before && exists c :: c in plan.changes && c.backup == p)
  }

  // ------------------------------------------------------------ main results

  /** No file that was there is lost to the places of the relocation. */
  lemma PlacesWereFree(before: Tree, p: Path)
    requires UnderSome(PlanMoves(before, RELOCATIONS), p)
    ensures p !in before
  {
  }

  /** The rollback leaves every path as it was, or as a trace left on purpose. */
  ghost predicate Undone(before: Tree, plan: Plan, now: Tree) {
    forall p :: SameAt(before, now, p) || Trace(before, plan, p)
  }

  /** What rollback takes care of, or the update leaves on purpose. */
  predicate Settled(before: Tree, plan: Plan, p: Path) {
    p in Touched(before, plan) || UnderSome(PlanMoves(before, RELOCATIONS), p) || Trace(before, plan, p)
  }

  /** What rollback does at a path that the failure may have changed. */
  lemma RollbackAt(before: Tree, plan: Plan, broken: Tree, p: Path)
    ensures Settled(before, plan, p) ==> SameAt(before, RolledBack(before, plan, broken), p) || Trace(before, plan, p)
    ensures !Settled(before, plan, p) ==> SameAt(broken, RolledBack(before, plan, broken), p)
  {
    hide Touched, PlanMoves, Trace;
    if UnderSome(PlanMoves(before, RELOCATIONS), p) {
      PlacesWereFree(before, p);
    }
  }

  // ------------------------------------------- the three stages of a failure

  /** Nothing but what rollback settles has changed. */
  ghost predicate Tidy(start: Tree, plan: Plan, now: Tree) {
    forall p :: Settled(start, plan, p) || SameAt(start, now, p)
  }

  /** The compiled directory is rebuilt, and nothing else has changed. */
  ghost predicate Rebuilt(start: Tree, plan: Plan, now: Tree) {
    && (forall p :: Settled(start, plan, p) || Under(plan.compiled.dir, p) || SameAt(start, now, p))
    && (forall p :: Under(plan.compiled.dir, p) ==>
          Settled(start, plan, p) || SameAt(plan.compiled.Output(), now, p))
  }

  /** The directory may be gone in part, ... */
  ghost predicate PartlyRemoved(was: Tree, dir: Path, now: Tree) {
    forall p :: SameAt(was, now, p) || (Under(dir, p) && p !in now)
  }

  /** ... or be gone and hold some of the new files, and one half written. */
  ghost predicate PartlyCopied(was: Tree, c: Compiled, now: Tree, done: set<Path>, p: Path, half: Option<string>) {
    && done <= c.staged.Keys && (p in c.staged.Keys - done || (p == c.hooks && done == c.staged.Keys))
    && now == WithHalf(Removed(was, c.dir) + Part(c.staged, done), p, half)
  }

  function Part(t: Tree, done: set<Path>): Tree { map q | q in done && q in t :: t[q] }

  function WithHalf(t: Tree, p: Path, half: Option<string>): Tree {
    if half.Some? then t[p := half.value] else t
  }

  /** The states in which the replacement of the compiled directory may break off. */
  ghost predicate Interrupted(was: Tree, c: Compiled, now: Tree) {
    PartlyRemoved(was, c.dir, now) || exists done, p, half :: PartlyCopied(was, c, now, done, p, half)
  }

  /** Every file that the compiled directory held is settled or rebuilt as it was,
      and whatever the compiler adds is settled. */
  ghost predicate PlannedOnly(before: Tree, plan: Plan) {
    forall p :: Under(plan.compiled.dir, p) ==>
      Settled(before, plan, p) || SameAt(plan.compiled.Output(), before, p)
  }

  /** Every file that the compiled directory held, or is given, is settled. */
  ghost predicate AllPlanned(before: Tree, plan: Plan) {
    forall p :: Under(plan.compiled.dir, p) && (p in before || p in plan.compiled.Output()) ==> Settled(before, plan, p)
  }

  /** A failure before the directory is replaced is always undone. */
  lemma EarlyFailureUndone(before: Tree, plan: Plan, broken: Tree)
    requires Tidy(before, plan, broken)
    ensures Undone(before, plan, RolledBack(before, plan, broken))
  {
    hide Settled, Trace, RolledBack;
    forall p ensures SameAt(before, RolledBack(before, plan, broken), p) || Trace(before, plan, p) {
      RollbackAt(before, plan, broken, p);
      assert Settled(before, plan, p) || SameAt(before, broken, p);
    }
  }

  /** A failure behind the replacement is undone exactly when the directory held,
      and is given, planned files only. */
  lemma LateFailureUndoneIff(before: Tree, plan: Plan, broken: Tree)
    requires Rebuilt(before, plan, broken)
    ensures Undone(before, plan, RolledBack(before, plan, broken)) <==> PlannedOnly(before, plan)
  {
    hide Settled, Trace, RolledBack, Compiled.Output;
    var after := RolledBack(before, plan, broken);
    forall p ensures SameAt(before, after, p) || Trace(before, plan, p) <==>
      !Under(plan.compiled.dir, p) || Settled(before, plan, p) || SameAt(plan.compiled.Output(), before, p)
    {
      RollbackAt(before, plan, broken, p);
      assert Settled(before, plan, p) || Under(plan.compiled.dir, p) || SameAt(before, broken, p);
      TraceIsSettled(before, plan, p);
    }
  }

  lemma TraceIsSettled(before: Tree, plan: Plan, p: Path)
    ensures Trace(before, plan, p) ==> Settled(before, plan, p)
  {
    hide Touched, PlanMoves, Trace;
  }

  /** However the replacement breaks off, it is undone, if and only if every file
      that the directory held or is given is settled. */
  lemma TornFailureUndoneIff(before: Tree, plan: Plan, was: Tree)
    requires plan.Valid() && Tidy(before, plan, was)
    ensures (forall broken :: Interrupted(was, plan.compiled, broken) ==> Undone(before, plan, RolledBack(before, plan, broken)))
      <==> AllPlanned(before, plan)
  {
    hide RolledBack, Undone, Interrupted, AllPlanned, Tidy;
    if AllPlanned(before, plan) {
      forall broken | Interrupted(was, plan.compiled, broken) ensures Undone(before, plan, RolledBack(before, plan, broken)) {
        TornFailureUndone(before, plan, was, broken);
      }
    } else {
      var broken := TornFailureStays(before, plan, was);
    }
  }

  lemma TornFailureUndone(before: Tree, plan: Plan, was: Tree, broken: Tree)
    requires plan.Valid() && Tidy(before, plan, was) && Interrupted(was, plan.compiled, broken)
    requires AllPlanned(before, plan)
    ensures Undone(before, plan, RolledBack(before, plan, broken))
  {
    hide Settled, Trace, RolledBack;
    forall p ensures SameAt(before, RolledBack(before, plan, broken), p) || Trace(before, plan, p) {
      RollbackAt(before, plan, broken, p);
      InterruptedAt(was, plan.compiled, broken, p);
      assert Settled(before, plan, p) || SameAt(before, was, p);
    }
  }

  /** A replacement that broke off added no foreign file, and took none from elsewhere. */
  lemma InterruptedAt(was: Tree, c: Compiled, now: Tree, p: Path)
    requires c.Valid() && Interrupted(was, c, now)
    ensures Under(c.dir, p) || SameAt(was, now, p)
    ensures p in now ==> SameAt(was, now, p) || p in c.Output()
  {
    if PartlyRemoved(was, c.dir, now) {
      assert SameAt(was, now, p) || (Under(c.dir, p) && p !in now);
    } else {
      var done, q, half :| PartlyCopied(was, c, now, done, q, half);
    }
  }

  /** Otherwise some way of breaking off leaves a mark. */
  lemma TornFailureStays(before: Tree, plan: Plan, was: Tree) returns (broken: Tree)
    requires plan.Valid() && Tidy(before, plan, was) && !AllPlanned(before, plan)
    ensures Interrupted(was, plan.compiled, broken) && !Undone(before, plan, RolledBack(before, plan, broken))
  {
    hide Settled, Trace, RolledBack;
    var c := plan.compiled;
    var p :| Under(c.dir, p) && (p in before || p in c.Output()) && !Settled(before, plan, p);
    if p in before {
      broken := Removed(was, c.dir);
      assert PartlyRemoved(was, c.dir, broken);
    } else {
      var done: set<Path> := if p in c.staged then {} else c.staged.Keys;
      broken := (Removed(was, c.dir) + Part(c.staged, done))[p := ""];
      assert PartlyCopied(was, c, broken, done, p, Some(""));
    }
    RollbackAt(before, plan, broken, p);
    TraceIsSettled(before, plan, p);
    assert !SameAt(before, RolledBack(before, plan, broken), p);
  }
}
