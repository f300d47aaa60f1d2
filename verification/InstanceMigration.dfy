/** The opt-in move of an in-tree installation to an instance of its own: backup
    beside the source, trees moved, instance configured, source overlaid, backup
    archived; with restoration when a step raises. */
module InstanceMigration {
  import opened Text
  import opened Trees

  const AI_TEAM: Path := [".ai-team"]
  const SCRIPTS: Path := ["scripts"]
  const CURSOR: Path := [".cursor"]
  const CLAUDE: Path := [".claude"]
  const AGENTS: Path := ["AGENTS.md"]
  const MOVED: seq<Path> := [AI_TEAM, SCRIPTS, CURSOR, CLAUDE]
  const MANAGED: seq<Path> := [AI_TEAM, SCRIPTS, CURSOR, CLAUDE, AGENTS]
  const LINK: Path := [".ai-team", "member-link.json"]
  const PROFILE: Path := [".ai-team", "project-profile.yaml"]

  predicate IsManaged(p: Path) {
    p != [] && p[0] in {".ai-team", "scripts", ".cursor", ".claude", "AGENTS.md"}
  }

  predicate IsMoved(p: Path) {
    p != [] && p[0] in {".ai-team", "scripts", ".cursor", ".claude"}
  }

  lemma OneName(n: Path, p: Path)
    requires |n| == 1
    ensures Under(n, p) <==> p != [] && p[0] == n[0]
  {
    if p != [] && p[0] == n[0] { assert p[..1] == n; }
  }

  /** The managed trees are the files under one of the five names. */
  lemma ManagedNames(p: Path)
    ensures IsManaged(p) <==>
      Under(AI_TEAM, p) || Under(SCRIPTS, p) || Under(CURSOR, p) || Under(CLAUDE, p) || Under(AGENTS, p)
    ensures IsMoved(p) <==> Under(AI_TEAM, p) || Under(SCRIPTS, p) || Under(CURSOR, p) || Under(CLAUDE, p)
  {
    OneName(AI_TEAM, p);
    OneName(SCRIPTS, p);
    OneName(CURSOR, p);
    OneName(CLAUDE, p);
    OneName(AGENTS, p);
  }

  // ------------------------------------------------ project files by ensemble

  const PROJECT_OWNED: seq<string> := [
    "state", "work-units", "evidence", "sources", "decisions", "events", "findings", "audits",
    "releases", "acceptance", "human-feedback", "notifications", "authorizations",
    "context-packages", "reconciliation", "runs", "run-authorization-grants", "mission-artifacts"]

  function From(name: string): Path { AI_TEAM + [name] }
  function To(ensemble: string, name: string): Path { AI_TEAM + ["ensembles", ensemble] + [name] }

  /** A directory of that name replaces whatever the ensemble had under it. */
  function RelocateOne(t: Tree, ensemble: string, name: string): Tree {
    if !Exists(t, From(name)) then t
    else
      var cleared := Removed(t, To(ensemble, name));
      Removed(Copied(cleared, From(name), To(ensemble, name)), From(name))
  }

  function Relocate(t: Tree, ensemble: string, names: seq<string>): Tree {
    if names == [] then t
    else RelocateOne(Relocate(t, ensemble, names[..|names| - 1]), ensemble, names[|names| - 1])
  }

  /** `p` is a project file of the unsplit instance, under one of `names`. */
  predicate Outgoing(names: seq<string>, p: Path) {
    |p| >= 2 && p[..1] == AI_TEAM && p[1] in names
  }

  /** `p` is in a directory of the ensemble that a directory of `t` replaces. */
  predicate Incoming(t: Tree, ensemble: string, names: seq<string>, p: Path) {
    |p| >= 4 && p[..1] == AI_TEAM && p[1] == "ensembles" && p[2] == ensemble && p[3] in names
    && Exists(t, From(p[3]))
  }

  lemma Places(ensemble: string, n: string, p: Path)
    ensures Under(From(n), p) <==> |p| >= 2 && p[..1] == AI_TEAM && p[1] == n
    ensures Under(To(ensemble, n), p) <==>
      |p| >= 4 && p[..1] == AI_TEAM && p[1] == "ensembles" && p[2] == ensemble && p[3] == n
    ensures Under(From(n), p) ==> p == From(n) + p[2..]
  {
    if |p| >= 2 && p[..1] == AI_TEAM && p[1] == n { assert p[..2] == From(n); }
    if |p| >= 4 && p[..1] == AI_TEAM && p[1] == "ensembles" && p[2] == ensemble && p[3] == n {
      assert p[..4] == To(ensemble, n);
    }
    if Under(From(n), p) { assert p[0] == From(n)[0]; }
    if Under(To(ensemble, n), p) { assert p[0] == To(ensemble, n)[0]; }
  }

  /** One directory moves in; everything else stays. */
  lemma RelocateOneAt(t: Tree, ensemble: string, n: string, p: Path)
    requires n != "ensembles"
    ensures var t' := RelocateOne(t, ensemble, n);
      && (Under(From(n), p) ==> p !in t')
      && (Under(To(ensemble, n), p) && Exists(t, From(n)) ==>
            var q := From(n) + p[4..]; (p in t' <==> q in t) && (q in t ==> t'[p] == t[q]))
      && (!Under(From(n), p) && (!Under(To(ensemble, n), p) || !Exists(t, From(n))) ==> SameAt(t, t', p))
  {
    Places(ensemble, n, p);
    if Exists(t, From(n)) {
      var cleared := Removed(t, To(ensemble, n));
      if Under(To(ensemble, n), p) {
        var q := From(n) + p[4..];
        Places(ensemble, n, q);
        assert Image(To(ensemble, n), From(n), p) == q;
        assert p == To(ensemble, n) + p[4..];
        if q in cleared {
          CopiedAt(cleared, From(n), To(ensemble, n), q);
          assert Image(From(n), To(ensemble, n), q) == p;
        }
      }
    }
  }

  /** All files of the named directories move into the ensemble, each to the same
      name; what the ensemble had in a directory that moves in is gone; nothing
      else changes. */
  lemma {:induction false} RelocateAt(t: Tree, ensemble: string, names: seq<string>, p: Path)
    requires "ensembles" !in names
    ensures var t' := Relocate(t, ensemble, names);
      && (Outgoing(names, p) ==> p !in t')
      && (Incoming(t, ensemble, names, p) ==>
            var q := From(p[3]) + p[4..]; (p in t' <==> q in t) && (q in t ==> t'[p] == t[q]))
      && (!Outgoing(names, p) && !Incoming(t, ensemble, names, p) ==> SameAt(t, t', p))
    decreases |names|, 1
  {
    if names != [] {
      var k := |names| - 1;
      var n, rest := names[k], names[..k];
      var before := Relocate(t, ensemble, rest);
      RelocateAt(t, ensemble, rest, p);
      if n in rest {
        AlreadyGone(t, ensemble, rest, n);
      } else {
        StillThere(t, ensemble, rest, n);
      }
      RelocateOneAt(before, ensemble, n, p);
      Places(ensemble, n, p);
      if Incoming(t, ensemble, names, p) {
        var q := From(p[3]) + p[4..];
        Places(ensemble, p[3], q);
        RelocateAt(t, ensemble, rest, q);
      }
    }
  }

  lemma AlreadyGone(t: Tree, ensemble: string, names: seq<string>, n: string)
    requires "ensembles" !in names && n in names
    ensures !Exists(Relocate(t, ensemble, names), From(n))
    decreases |names|, 2
  {
    forall p | Under(From(n), p) ensures p !in Relocate(t, ensemble, names) {
      Places(ensemble, n, p);
      RelocateAt(t, ensemble, names, p);
    }
  }

  /** A directory not yet moved is untouched by those that were. */
  lemma {:induction false} StillThere(t: Tree, ensemble: string, names: seq<string>, n: string)
    requires "ensembles" !in names && n !in names && n != "ensembles"
    ensures Exists(Relocate(t, ensemble, names), From(n)) <==> Exists(t, From(n))
  {
    var t' := Relocate(t, ensemble, names);
    if names != [] {
      var k := |names| - 1;
      var before := Relocate(t, ensemble, names[..k]);
      StillThere(t, ensemble, names[..k], n);
      forall p | Under(From(n), p) ensures SameAt(before, t', p) {
        RelocateOneAt(before, ensemble, names[k], p);
        Places(ensemble, n, p);
        Places(ensemble, names[k], p);
      }
    }
  }

  /** The directories that are moved below the ensembles do not include these. */
  lemma EnsemblesStay()
    ensures "ensembles" !in PROJECT_OWNED
  {
  }

  // ------------------------------------------------------ the plan's outcome

  datatype Write = Write(path: Path, data: string)

  datatype Plan = Plan(
    backup: string, ensemble: string, git: seq<Write>, profile: seq<Write>,
    state: Write, catalog: seq<Write>, link: string, overlay: Option<string> -> string,
    workspace: Write, pack: Tree -> string, archive: Path, note: Write)
  {
    /** The backup directory has a fresh name; configuration stays in `.ai-team`,
        version control and workspace files stay out of it. */
    ghost predicate Valid() {
      && !IsManaged([backup])
      && (forall w :: w in git ==> !IsManaged(w.path)) && !IsManaged(workspace.path)
      && (forall w :: w in profile + [state] + catalog + [note] ==> Under(AI_TEAM, w.path))
      && Under(AI_TEAM, archive)
    }
  }

  function WriteAll(t: Tree, ws: seq<Write>): Tree {
    if ws == [] then t else WriteAll(t, ws[..|ws| - 1])[ws[|ws| - 1].path := ws[|ws| - 1].data]
  }

  function Configured(t: Tree, plan: Plan): Tree {
    var moved := Relocate(WriteAll(t, plan.profile), plan.ensemble, PROJECT_OWNED);
    WriteAll(if plan.state.path in moved then moved else moved[plan.state.path := plan.state.data], plan.catalog)
  }

  /** The four trees of the source, under the same names. */
  function MovedPart(t: Tree): Tree {
    map p | p in t && IsMoved(p) :: t[p]
  }

  function Stripped(t: Tree): Tree {
    map p | p in t && !IsMoved(p) :: t[p]
  }

  function Overlaid(t: Tree, plan: Plan): Tree {
    var linked := t[LINK := plan.link];
    linked[AGENTS := plan.overlay(if AGENTS in linked then Some(linked[AGENTS]) else None)]
  }

  function SourceAfter(t: Tree, plan: Plan): Tree {
    Overlaid(Stripped(t), plan)
  }

  function Started(t: Tree, plan: Plan): Tree {
    var begun := WriteAll(map[], plan.git);
    if AGENTS in t then begun[AGENTS := t[AGENTS]] else begun
  }

  /** The instance, which was empty, before the backup is archived ... */
  function InstanceFilled(t: Tree, plan: Plan): Tree {
    Configured(Started(t, plan) + MovedPart(t), plan)[plan.workspace.path := plan.workspace.data]
  }

  /** ... and after. */
  function InstanceAfter(t: Tree, plan: Plan, archived: string): Tree {
    InstanceFilled(t, plan)[plan.archive := archived][plan.note.path := plan.note.data]
  }

  /** The managed trees, read from the backup `b` in `t`. */
  function BackupIn(t: Tree, b: Path): Tree {
    map p | p in Images(t, b, []) && IsManaged(p) && b + p in t :: t[b + p]
  }

  function ManagedPart(t: Tree): Tree {
    map p | p in t && IsManaged(p) :: t[p]
  }

  // ------------------------------------- what stands where, file by file

  function At(t: Tree, p: Path): Option<string> { if p in t then Some(t[p]) else None }

  /** What the last of the documents written to `p` says. */
  function LastIn(ws: seq<Write>, p: Path): Option<string> {
    if ws == [] then None
    else if ws[|ws| - 1].path == p then Some(ws[|ws| - 1].data)
    else LastIn(ws[..|ws| - 1], p)
  }

  function Or(a: Option<string>, b: Option<string>): Option<string> { if a.Some? then a else b }

  lemma {:induction false} WriteAllAt(t: Tree, ws: seq<Write>, p: Path)
    ensures At(WriteAll(t, ws), p) == Or(LastIn(ws, p), At(t, p))
  {
    if ws != [] { WriteAllAt(t, ws[..|ws| - 1], p); }
  }

  /** What the instance has at `p` before project files are moved: a profile
      document, the source's file, or a file of the version control. */
  function AtFirst(before: Tree, plan: Plan, p: Path): Option<string> {
    Or(LastIn(plan.profile, p),
       if p in before && (IsMoved(p) || p == AGENTS) then Some(before[p]) else LastIn(plan.git, p))
  }

  /** The project has files under this name. */
  ghost predicate Comes(before: Tree, plan: Plan, name: string) {
    (exists p :: p in before && Under(From(name), p)) || exists w :: w in plan.profile && Under(From(name), w.path)
  }

  /** `p` is in a directory of the ensemble that one of the project's replaces. */
  ghost predicate Replaced(before: Tree, plan: Plan, p: Path) {
    && |p| >= 4 && p[..1] == AI_TEAM && p[1] == "ensembles" && p[2] == plan.ensemble && p[3] in PROJECT_OWNED
    && Comes(before, plan, p[3])
  }

  /** What the project leaves at `p` once its files are below the ensemble. */
  ghost function Given(before: Tree, plan: Plan, p: Path): Option<string> {
    if Outgoing(PROJECT_OWNED, p) then None
    else if Replaced(before, plan, p) then AtFirst(before, plan, From(p[3]) + p[4..])
    else AtFirst(before, plan, p)
  }

  /** What the instance holds at `p` in the end: the last document that names it,
      else what the project gave it, else the state's template in its own place. */
  ghost function Expected(before: Tree, plan: Plan, last: seq<Write>, p: Path): Option<string> {
    Or(LastIn(last, p),
    Or(if p == plan.workspace.path then Some(plan.workspace.data) else None,
    Or(LastIn(plan.catalog, p),
    Or(Given(before, plan, p), if p == plan.state.path then Some(plan.state.data) else None))))
  }

  ghost predicate Arrived(before: Tree, plan: Plan, last: seq<Write>, instance: Tree) {
    forall p :: At(instance, p) == Expected(before, plan, last, p)
  }

  lemma FirstAt(before: Tree, plan: Plan, p: Path)
    requires plan.Valid()
    ensures At(WriteAll(Started(before, plan) + MovedPart(before), plan.profile), p) == AtFirst(before, plan, p)
  {
    hide LastIn, WriteAll;
    WriteAllAt(Started(before, plan) + MovedPart(before), plan.profile, p);
    WriteAllAt(map[], plan.git, p);
    if IsMoved(p) || p == AGENTS { GitApart(plan, p); }
  }

  /** Version control files are no managed ones. */
  lemma GitApart(plan: Plan, p: Path)
    requires plan.Valid() && (IsMoved(p) || p == AGENTS)
    ensures LastIn(plan.git, p) == None
  {
    LastInNames(plan.git, p);
  }

  lemma {:induction false} LastInNames(ws: seq<Write>, p: Path)
    ensures LastIn(ws, p).Some? <==> exists w :: w in ws && w.path == p
  {
    if ws != [] {
      LastInNames(ws[..|ws| - 1], p);
      assert ws == ws[..|ws| - 1] + [ws[|ws| - 1]];
    }
  }

  lemma ComesIff(before: Tree, plan: Plan, name: string)
    requires plan.Valid()
    ensures Exists(WriteAll(Started(before, plan) + MovedPart(before), plan.profile), From(name)) <==> Comes(before, plan, name)
  {
    hide AtFirst, Started, MovedPart, WriteAll, Plan.Valid;
    var t := WriteAll(Started(before, plan) + MovedPart(before), plan.profile);
    if p :| p in t && Under(From(name), p) {
      FirstAt(before, plan, p);
      FirstComes(before, plan, name, p);
    }
    if p :| p in before && Under(From(name), p) {
      FirstAt(before, plan, p);
      FirstComes(before, plan, name, p);
    }
    if w :| w in plan.profile && Under(From(name), w.path) {
      FirstAt(before, plan, w.path);
      FirstComes(before, plan, name, w.path);
    }
  }

  lemma FirstComes(before: Tree, plan: Plan, name: string, p: Path)
    requires plan.Valid() && Under(From(name), p)
    ensures AtFirst(before, plan, p).Some? <==> p in before || exists w :: w in plan.profile && w.path == p
  {
    hide LastIn;
    Places("", name, p);
    assert IsMoved(p);
    GitApart(plan, p);
    LastInNames(plan.profile, p);
  }

  lemma GivenAt(before: Tree, plan: Plan, p: Path)
    requires plan.Valid()
    ensures var t := WriteAll(Started(before, plan) + MovedPart(before), plan.profile);
      At(Relocate(t, plan.ensemble, PROJECT_OWNED), p) == Given(before, plan, p)
  {
    var t := WriteAll(Started(before, plan) + MovedPart(before), plan.profile);
    hide AtFirst, Started, MovedPart, WriteAll, Relocate, Plan.Valid, PROJECT_OWNED, Comes;
    EnsemblesStay();
    RelocateAt(t, plan.ensemble, PROJECT_OWNED, p);
    FirstAt(before, plan, p);
    if |p| >= 4 {
      ComesIff(before, plan, p[3]);
      FirstAt(before, plan, From(p[3]) + p[4..]);
    }
  }

  lemma FilledAt(before: Tree, plan: Plan, p: Path)
    requires plan.Valid()
    ensures At(InstanceFilled(before, plan), p) == Expected(before, plan, [], p)
  {
    var t := WriteAll(Started(before, plan) + MovedPart(before), plan.profile);
    var moved := Relocate(t, plan.ensemble, PROJECT_OWNED);
    GivenAt(before, plan, p);
    GivenAt(before, plan, plan.state.path);
    hide Started, MovedPart, Relocate, Plan.Valid, PROJECT_OWNED, Given, WriteAll, LastIn;
    var held := if plan.state.path in moved then moved else moved[plan.state.path := plan.state.data];
    WriteAllAt(held, plan.catalog, p);
    NoDocument(p);
  }

  lemma NoDocument(p: Path)
    ensures LastIn([], p) == None
  {
  }

  lemma TwoDocuments(a: Write, b: Write, p: Path)
    ensures LastIn([a, b], p) == if p == b.path then Some(b.data) else if p == a.path then Some(a.data) else None
  {
    assert [a, b][..1] == [a] && [a][..0] == [];
    assert LastIn([a], p) == if p == a.path then Some(a.data) else None;
  }

  lemma FilledArrived(before: Tree, plan: Plan)
    requires plan.Valid()
    ensures Arrived(before, plan, [], InstanceFilled(before, plan))
  {
    hide InstanceFilled, Expected, Plan.Valid;
    forall p ensures At(InstanceFilled(before, plan), p) == Expected(before, plan, [], p) { FilledAt(before, plan, p); }
  }

  lemma AfterArrived(before: Tree, plan: Plan, archived: string)
    requires plan.Valid()
    ensures Arrived(before, plan, [Write(plan.archive, archived), plan.note], InstanceAfter(before, plan, archived))
  {
    hide InstanceFilled, Given, Plan.Valid;
    var last := [Write(plan.archive, archived), plan.note];
    hide LastIn;
    forall p ensures At(InstanceAfter(before, plan, archived), p) == Expected(before, plan, last, p) {
      FilledAt(before, plan, p);
      NoDocument(p);
      TwoDocuments(last[0], last[1], p);
    }
  }

  // What that means for the files a reader asks about.

  /** A document that names a managed file, the state's apart. */
  predicate Documented(plan: Plan, last: seq<Write>, p: Path) {
    exists w :: w in plan.catalog + last + [plan.workspace] && w.path == p
  }

  predicate Profiled(plan: Plan, p: Path) { exists w :: w in plan.profile && w.path == p }

  /** Every file of a project-owned directory is below the ensemble, as it was. */
  ghost predicate ProjectFilesStand(before: Tree, plan: Plan, last: seq<Write>, instance: Tree) {
    forall name, rel: Path :: (name in PROJECT_OWNED && From(name) + rel in before && !Profiled(plan, From(name) + rel)
        && !Documented(plan, last, To(plan.ensemble, name) + rel)) ==>
      At(instance, To(plan.ensemble, name) + rel) == Some(before[From(name) + rel])
  }

  /** Every other file of the four trees, and AGENTS.md, is where it was. */
  ghost predicate OtherFilesStand(before: Tree, plan: Plan, last: seq<Write>, instance: Tree) {
    forall p :: (p in before && (IsMoved(p) || p == AGENTS) && !Outgoing(PROJECT_OWNED, p) && !Replaced(before, plan, p)
        && !Profiled(plan, p) && !Documented(plan, last, p)) ==>
      At(instance, p) == Some(before[p])
  }

  /** The state's template is written if and only if nothing was there, or the same. */
  ghost predicate StateStands(before: Tree, plan: Plan, last: seq<Write>, instance: Tree) {
    !Documented(plan, last, plan.state.path) ==>
      && (At(instance, plan.state.path) == Some(plan.state.data) <==>
            Given(before, plan, plan.state.path) in {None, Some(plan.state.data)})
      && (Given(before, plan, plan.state.path).Some? ==> At(instance, plan.state.path) == Given(before, plan, plan.state.path))
  }

  /** Each document says in the end what was written to its path last. */
  ghost predicate DocumentsStand(before: Tree, plan: Plan, last: seq<Write>, instance: Tree) {
    && (forall p :: LastIn(last, p).Some? ==> At(instance, p) == LastIn(last, p))
    && (LastIn(last, plan.workspace.path).None? ==> At(instance, plan.workspace.path) == Some(plan.workspace.data))
    && (forall p :: LastIn(plan.catalog, p).Some? && LastIn(last, p).None? && p != plan.workspace.path ==>
          At(instance, p) == LastIn(plan.catalog, p))
    && (forall p :: (LastIn(plan.profile, p).Some? && !Documented(plan, last, p) && !Outgoing(PROJECT_OWNED, p)
            && !Replaced(before, plan, p)) ==> At(instance, p) == LastIn(plan.profile, p))
  }

  lemma ArrivedMeans(before: Tree, plan: Plan, last: seq<Write>, instance: Tree)
    requires plan.Valid() && Arrived(before, plan, last, instance)
    ensures ProjectFilesStand(before, plan, last, instance) && OtherFilesStand(before, plan, last, instance)
    ensures StateStands(before, plan, last, instance) && DocumentsStand(before, plan, last, instance)
  {
    hide Plan.Valid, LastIn, PROJECT_OWNED, Comes, AtFirst, Given, Documented;
    forall p ensures !Documented(plan, last, p) ==> LastIn(last, p) == None == LastIn(plan.catalog, p) && p != plan.workspace.path {
      if !Documented(plan, last, p) { Undocumented(plan, last, p); }
    }
    forall name, rel: Path | name in PROJECT_OWNED && From(name) + rel in before && !Profiled(plan, From(name) + rel)
      && !Documented(plan, last, To(plan.ensemble, name) + rel)
      ensures At(instance, To(plan.ensemble, name) + rel) == Some(before[From(name) + rel])
    {
      ProjectFileGiven(before, plan, name, rel);
    }
    forall p | p in before && (IsMoved(p) || p == AGENTS) && !Outgoing(PROJECT_OWNED, p) && !Replaced(before, plan, p)
      && !Profiled(plan, p) && !Documented(plan, last, p)
      ensures At(instance, p) == Some(before[p])
    {
      OtherFileGiven(before, plan, p);
    }
    forall p | LastIn(plan.profile, p).Some? && !Outgoing(PROJECT_OWNED, p) && !Replaced(before, plan, p)
      ensures Given(before, plan, p) == LastIn(plan.profile, p)
    {
      ProfileGiven(before, plan, p);
    }
  }

  lemma Undocumented(plan: Plan, last: seq<Write>, p: Path)
    requires !Documented(plan, last, p)
    ensures LastIn(last, p) == None == LastIn(plan.catalog, p) && p != plan.workspace.path
  {
    LastInNames(last, p);
    LastInNames(plan.catalog, p);
    hide LastIn;
    assert forall w :: w in plan.catalog + last + [plan.workspace] <==> w in plan.catalog || w in last || w == plan.workspace;
  }

  lemma ProjectFileGiven(before: Tree, plan: Plan, name: string, rel: Path)
    requires name in PROJECT_OWNED && From(name) + rel in before && !Profiled(plan, From(name) + rel)
    ensures Given(before, plan, To(plan.ensemble, name) + rel) == Some(before[From(name) + rel])
  {
    EnsemblesStay();
    hide PROJECT_OWNED, LastIn;
    var p, q := From(name) + rel, To(plan.ensemble, name) + rel;
    Places(plan.ensemble, name, q);
    Places(plan.ensemble, name, p);
    assert Under(From(name), p) && Under(To(plan.ensemble, name), q);
    assert q[4..] == rel && q[3] == name && q[1] == "ensembles";
    LastInNames(plan.profile, p);
    assert IsMoved(p);
  }

  lemma OtherFileGiven(before: Tree, plan: Plan, p: Path)
    requires p in before && (IsMoved(p) || p == AGENTS) && !Outgoing(PROJECT_OWNED, p) && !Replaced(before, plan, p)
    requires !Profiled(plan, p)
    ensures Given(before, plan, p) == Some(before[p])
  {
    hide PROJECT_OWNED, LastIn, IsMoved;
    LastInNames(plan.profile, p);
  }

  lemma ProfileGiven(before: Tree, plan: Plan, p: Path)
    requires LastIn(plan.profile, p).Some? && !Outgoing(PROJECT_OWNED, p) && !Replaced(before, plan, p)
    ensures Given(before, plan, p) == LastIn(plan.profile, p)
  {
    hide PROJECT_OWNED, LastIn, IsMoved;
  }

  /** The source keeps what is not managed; of the four trees only the link is
      left, and AGENTS.md is the overlay of what it was. */
  ghost predicate SourceStands(before: Tree, plan: Plan, source: Tree) {
    && (forall p :: IsManaged(p) || At(source, p) == At(before, p))
    && (forall p :: IsMoved(p) && p != LINK ==> p !in source)
    && At(source, LINK) == Some(plan.link)
    && At(source, AGENTS) == Some(plan.overlay(At(before, AGENTS)))
    && (forall p :: IsManaged(p) && !IsMoved(p) && p != AGENTS ==> At(source, p) == At(before, p))
  }

  /** What a successful migration leaves in both trees. */
  ghost predicate Migrated(before: Tree, plan: Plan, archived: string, source: Tree, instance: Tree) {
    var last := [Write(plan.archive, archived), plan.note];
    && Arrived(before, plan, last, instance) && SourceStands(before, plan, source)
    && ProjectFilesStand(before, plan, last, instance) && OtherFilesStand(before, plan, last, instance)
    && StateStands(before, plan, last, instance) && DocumentsStand(before, plan, last, instance)
  }

  lemma MigratedMeans(before: Tree, plan: Plan, archived: string)
    requires plan.Valid()
    ensures Migrated(before, plan, archived, SourceAfter(before, plan), InstanceAfter(before, plan, archived))
  {
    hide Plan.Valid, SourceAfter, InstanceAfter, Arrived, SourceStands, ProjectFilesStand, OtherFilesStand, StateStands, DocumentsStand;
    AfterArrived(before, plan, archived);
    SourceOverlaid(before, plan);
    ArrivedMeans(before, plan, [Write(plan.archive, archived), plan.note], InstanceAfter(before, plan, archived));
  }

  lemma SourceOverlaid(before: Tree, plan: Plan)
    ensures SourceStands(before, plan, SourceAfter(before, plan))
  {
  }

  // --------------------------------------------------------- backup and restore

  /** Every managed file of `before` is in the backup, and no other. */
  ghost predicate HasBackup(before: Tree, now: Tree, b: Path) {
    forall p :: IsManaged(p) ==> (b + p in now <==> p in before) && (p in before ==> now[b + p] == before[p])
  }

  /** `before` can be had back: backup complete, the rest as it was. */
  ghost predicate Safe(before: Tree, now: Tree, b: Path) {
    && HasBackup(before, now, b)
    && forall p :: IsManaged(p) || Under(b, p) || SameAt(before, now, p)
  }

  lemma SafeStays(before: Tree, was: Tree, now: Tree, b: Path)
    requires |b| == 1 && !IsManaged(b) && Safe(before, was, b)
    requires forall p :: IsManaged(p) || SameAt(was, now, p)
    ensures Safe(before, now, b)
  {
    forall p | IsManaged(p) ensures (b + p in now <==> p in before) && (p in before ==> now[b + p] == before[p]) {
      assert (b + p)[0] == b[0];
      assert SameAt(was, now, b + p);
    }
    forall p ensures IsManaged(p) || Under(b, p) || SameAt(before, now, p) {
      assert IsManaged(p) || Under(b, p) || SameAt(before, was, p);
    }
  }

  /** What restoring makes of a tree: the managed files come from the backup, the
      backup goes. */
  function RestoredFrom(now: Tree, b: Path): Tree {
    map p | p in now.Keys + Images(now, b, []) && !Under(b, p) && (if IsManaged(p) then b + p in now else p in now) ::
      if IsManaged(p) then now[b + p] else now[p]
  }

  lemma RestoreIsExact(before: Tree, now: Tree, b: Path)
    requires |b| == 1 && !IsManaged(b) && !Exists(before, b) && Safe(before, now, b)
    ensures RestoredFrom(now, b) == before
  {
    var after := RestoredFrom(now, b);
    forall p ensures SameAt(before, after, p) {
      if Under(b, p) {
        assert p[0] == b[0];
      } else if IsManaged(p) {
        assert (b + p)[|b|..] == p;
        assert Image(b, [], b + p) == p;
      } else {
        assert SameAt(before, now, p);
      }
    }
    SameEverywhere(before, after);
  }

  // ---------------------------------------------------------- the run itself

  /** How far the migration is: making the backup, working with a whole backup,
      removing it, or without it. */
  datatype Stage = BackingUp | Working | Removing | Archived

  class Migration {
    var source: Tree
    var instance: Tree
    var present: bool
    /** Some operation has failed. */
    ghost var faulty: bool
    /** Advanced by what makes the backup and by what removes it, and by nothing else. */
    ghost var stage: Stage

    constructor (source: Tree, present: bool)
      ensures this.source == source && instance == map[] && this.present == present && !faulty && stage.BackingUp?
    {
      this.source, instance, this.present, faulty, stage := source, map[], present, false, BackingUp;
    }

    method PutSource(p: Path, data: string) returns (ok: bool)
      modifies `source, `faulty
      ensures faulty == (old(faulty) || !ok)
      ensures ok ==> source == old(source)[p := data]
      ensures forall q :: q == p || SameAt(old(source), source, q)
    {
      ok := *;
      faulty := faulty || !ok;
      var half: Option<string> := *;
      source := if ok then source[p := data] else if half.Some? then source[p := half.value] else source;
    }

    method PutInstance(p: Path, data: string) returns (ok: bool)
      modifies `instance, `faulty
      ensures faulty == (old(faulty) || !ok)
      ensures ok ==> instance == old(instance)[p := data]
      ensures forall q :: q == p || SameAt(old(instance), instance, q)
    {
      ok := *;
      faulty := faulty || !ok;
      var half: Option<string> := *;
      instance := if ok then instance[p := data] else if half.Some? then instance[p := half.value] else instance;
    }

    /** `shutil.rmtree` on the source, which may stop half-way. */
    method RemoveSource(dir: Path) returns (ok: bool)
      modifies `source, `faulty
      ensures faulty == (old(faulty) || !ok)
      ensures ok ==> source == Removed(old(source), dir)
      ensures forall q :: q in source ==> q in old(source) && source[q] == old(source)[q]
      ensures forall q :: Under(dir, q) || SameAt(old(source), source, q)
    {
      ok := *;
      faulty := faulty || !ok;
      var some: set<Path> := *;
      source := if ok then Removed(source, dir) else map p | p in source && !(p in some && Under(dir, p)) :: source[p];
    }

    /** Copies one managed tree into the backup. */
    method BackupOne(n: Path, b: Path) returns (ok: bool)
      requires |n| == 1 && |b| == 1 && n != b
      modifies `source, `faulty
      ensures faulty == (old(faulty) || !ok)
      ensures ok ==> forall p :: Under(n, p) && p in old(source) ==> b + p in source && source[b + p] == old(source)[p]
      ensures ok ==> forall q :: (exists p :: Under(n, p) && p in old(source) && q == b + p) || SameAt(old(source), source, q)
      ensures forall q :: Under(b, q) || SameAt(old(source), source, q)
    {
      ghost var start := source;
      var todo := set p | p in source && Under(n, p);
      ghost var all := todo;
      while todo != {}
        invariant todo <= all && faulty == old(faulty)
        invariant forall q :: Under(b, q) || SameAt(start, source, q)
        invariant forall q :: (exists p :: p in all - todo && q == b + p) || SameAt(start, source, q)
        invariant forall p :: p in all - todo ==> b + p in source && source[b + p] == start[p]
      {
        var p :| p in todo;
        assert p[0] == n[0] != b[0] && SameAt(start, source, p);
        ghost var was := source;
        ok := PutSource(b + p, source[p]);
        forall q ensures Under(b, q) || SameAt(start, source, q) {
          assert SameAt(was, source, q) || q == b + p;
        }
        if !ok { return; }
        forall q ensures (exists r :: r in all - (todo - {p}) && q == b + r) || SameAt(start, source, q) {
          if q == b + p {
            assert p in all - (todo - {p});
          } else if SameAt(start, was, q) {
            assert SameAt(was, source, q);
          } else {
            var r :| r in all - todo && q == b + r;
            assert r in all - (todo - {p});
          }
        }
        forall r | r in all - (todo - {p}) ensures b + r in source && source[b + r] == start[r] {
          if r != p {
            assert (b + r)[1..] == r && (b + p)[1..] == p;
            assert SameAt(was, source, b + r);
          }
        }
        todo := todo - {p};
      }
      ok := true;
    }
  
    method BackupTrees(b: Path) returns (ok: bool)
      requires |b| == 1 && !IsManaged(b) && !Exists(source, b)
      modifies `source, `faulty, `stage
      ensures faulty == (old(faulty) || !ok)
      ensures stage == if ok then Working else BackingUp
      ensures ok ==> Safe(old(source), source, b)
      ensures forall q :: Under(b, q) || SameAt(old(source), source, q)
    {
      ghost var before := source;
      stage := BackingUp;
      for i := 0 to |MANAGED|
        invariant faulty == old(faulty) && stage.BackingUp?
        invariant forall q :: Under(b, q) || SameAt(before, source, q)
        invariant BackupPart(before, source, b, i)
      {
        ghost var was := source;
        assert MANAGED[i][0] != b[0] && |MANAGED[i]| == 1;
        ok := BackupOne(MANAGED[i], b);
        forall q ensures Under(b, q) || SameAt(before, source, q) {
          assert Under(b, q) || SameAt(before, was, q);
        }
        if !ok { return; }
        BackupMore(before, was, source, b, i);
      }
      BackupWhole(before, source, b);
      stage := Working;
      ok := true;
    }

    /** Removes the backup, of which a failure may leave any part. */
    method RemoveBackup(b: Path) returns (ok: bool)
      modifies `source, `faulty, `stage
      ensures faulty == (old(faulty) || !ok)
      ensures stage == if ok then Archived else Removing
      ensures ok ==> source == Removed(old(source), b)
      ensures forall q :: q in source ==> q in old(source) && source[q] == old(source)[q]
      ensures forall q :: Under(b, q) || SameAt(old(source), source, q)
    {
      stage := Removing;
      ok := RemoveSource(b);
      if ok { stage := Archived; }
    }

    /** Puts the managed trees back from the backup, which then goes. */
    method RestoreTrees(b: Path)
      requires |b| == 1 && !IsManaged(b)
      modifies `source
      ensures source == RestoredFrom(old(source), b)
    {
      ghost var was := source;
      for i := 0 to |MANAGED|
        invariant RestoredPart(was, source, b, i)
      {
        var n := MANAGED[i];
        ghost var mid := source;
        source := Removed(source, n);
        if Exists(source, b + n) {
          source := Copied(source, b + n, n);
        }
        RestoreMore(was, mid, source, b, i);
      }
      RestoreWhole(was, source, b);
      source := Removed(source, b);
    }

    /** `shutil.move` of one tree; when it stops half-way, anything may be in
        either place. */
    method MoveOver(n: Path) returns (ok: bool)
      modifies `source, `instance, `faulty
      ensures ok ==> faulty == old(faulty)
      ensures !ok ==> faulty || Exists(old(instance), n)
      ensures ok ==> source == Removed(old(source), n) && forall q :: Under(n, q) ==>
        SameAt(old(source), instance, q) || (q !in old(source) && SameAt(old(instance), instance, q))
      ensures forall q :: Under(n, q) || (SameAt(old(source), source, q) && SameAt(old(instance), instance, q))
    {
      if !Exists(source, n) {
        assert forall q :: Under(n, q) ==> q !in source;
        return true;
      }
      if Exists(instance, n) {
        return false;
      }
      ok := *;
      faulty := faulty || !ok;
      var left: Tree := *;
      var moved: Tree := *;
      if ok {
        moved, left := source, map[];
      }
      instance := map q | q in instance.Keys + moved.Keys && (if Under(n, q) then q in moved else q in instance) ::
        if Under(n, q) then moved[q] else instance[q];
      source := map q | q in source.Keys + left.Keys && (if Under(n, q) then q in left else q in source) ::
        if Under(n, q) then left[q] else source[q];
    }

    method MoveTrees() returns (ok: bool)
      requires forall p :: p in instance ==> !IsMoved(p)
      modifies `source, `instance, `faulty
      ensures ok ==> faulty == old(faulty)
      ensures !ok ==> faulty
      ensures ok ==> source == Stripped(old(source)) && instance == old(instance) + MovedPart(old(source))
      ensures forall q :: IsMoved(q) || (SameAt(old(source), source, q) && SameAt(old(instance), instance, q))
    {
      ghost var s0, i0 := source, instance;
      for k := 0 to |MOVED|
        invariant faulty == old(faulty)
        invariant MovedPartly(s0, i0, source, instance, k)
      {
        ghost var s1, i1 := source, instance;
        MovedNone(s0, i0, s1, i1, k);
        ok := MoveOver(MOVED[k]);
        forall q ensures IsMoved(q) || (SameAt(s0, source, q) && SameAt(i0, instance, q)) {
          MovedName(q);
          assert Under(MOVED[k], q) || (SameAt(s1, source, q) && SameAt(i1, instance, q));
        }
        if !ok { return; }
        MovedMore(s0, i0, s1, i1, source, instance, k);
      }
      MovedAll(s0, i0, source, instance);
      ok := true;
    }

    method PutAll(ws: seq<Write>) returns (ok: bool)
      modifies `instance, `faulty
      ensures ok ==> instance == WriteAll(old(instance), ws) && faulty == old(faulty)
      ensures !ok ==> faulty
      ensures forall q :: (exists w :: w in ws && w.path == q) || SameAt(old(instance), instance, q)
    {
      ghost var start := instance;
      for i := 0 to |ws|
        invariant instance == WriteAll(start, ws[..i]) && faulty == old(faulty)
        invariant forall q :: (exists w :: w in ws && w.path == q) || SameAt(start, instance, q)
      {
        assert ws[..i + 1][..i] == ws[..i];
        ghost var was := instance;
        ok := PutInstance(ws[i].path, ws[i].data);
        forall q ensures (exists w :: w in ws && w.path == q) || SameAt(start, instance, q) {
          assert (exists w :: w in ws && w.path == q) || SameAt(start, was, q);
          assert ws[i] in ws;
          assert q == ws[i].path || SameAt(was, instance, q);
        }
        if !ok { return; }
      }
      assert ws[..|ws|] == ws;
      ok := true;
    }

    /** Moves one directory into the ensemble, perhaps not to the end. */
    method RelocateStep(ensemble: string, name: string) returns (ok: bool)
      modifies `instance, `faulty
      ensures faulty == (old(faulty) || !ok)
      ensures ok ==> instance == RelocateOne(old(instance), ensemble, name)
      ensures forall q :: Under(AI_TEAM, q) || SameAt(old(instance), instance, q)
    {
      hide RelocateOne;
      RelocateInside(instance, ensemble, name);
      ok := *;
      faulty := faulty || !ok;
      var torn: Tree := *;
      if ok {
        instance := RelocateOne(instance, ensemble, name);
      } else {
        instance := map q | q in instance.Keys + torn.Keys && (if Under(AI_TEAM, q) then q in torn else q in instance) ::
          if Under(AI_TEAM, q) then torn[q] else instance[q];
      }
    }

    method RelocateProjectOwned(ensemble: string, names: seq<string>) returns (ok: bool)
      modifies `instance, `faulty
      ensures ok ==> instance == Relocate(old(instance), ensemble, names) && faulty == old(faulty)
      ensures !ok ==> faulty
      ensures forall q :: Under(AI_TEAM, q) || SameAt(old(instance), instance, q)
    {
      hide RelocateOne;
      ghost var start := instance;
      for i := 0 to |names|
        invariant instance == Relocate(start, ensemble, names[..i]) && faulty == old(faulty)
        invariant forall q :: Under(AI_TEAM, q) || SameAt(start, instance, q)
      {
        assert names[..i + 1][..i] == names[..i];
        ghost var was := instance;
        ok := RelocateStep(ensemble, names[i]);
        forall q ensures Under(AI_TEAM, q) || SameAt(start, instance, q) {
          assert Under(AI_TEAM, q) || SameAt(start, was, q);
        }
        if !ok { return; }
      }
      assert names[..|names|] == names;
      ok := true;
    }

    method Configure(plan: Plan) returns (ok: bool)
      requires plan.Valid()
      modifies `instance, `faulty
      ensures ok ==> instance == Configured(old(instance), plan) && faulty == old(faulty)
      ensures !ok ==> faulty
      ensures forall q :: Under(AI_TEAM, q) || SameAt(old(instance), instance, q)
    {
      hide Relocate, PROJECT_OWNED;
      ghost var t0 := instance;
      ok := PutAll(plan.profile);
      ghost var t1 := instance;
      InTeam(plan, plan.profile, t0, t0, t1);
      if !ok { return; }
      ok := RelocateProjectOwned(plan.ensemble, PROJECT_OWNED);
      ghost var t2 := instance;
      InTeam(plan, [], t0, t1, t2);
      if !ok { return; }
      if plan.state.path !in instance {
        ok := PutInstance(plan.state.path, plan.state.data);
      }
      ghost var t3 := instance;
      InTeam(plan, [plan.state], t0, t2, t3);
      if !ok { return; }
      ok := PutAll(plan.catalog);
      InTeam(plan, plan.catalog, t0, t3, instance);
    }

    /** Starts the instance and moves the trees over. */
    method StartInstance(plan: Plan) returns (ok: bool)
      requires plan.Valid() && instance == map[]
      modifies `source, `instance, `present, `faulty
      ensures present
      ensures ok ==> source == Stripped(old(source)) && faulty == old(faulty)
      ensures ok ==> instance == Started(old(source), plan) + MovedPart(old(source))
      ensures !ok ==> faulty
      ensures forall q :: IsManaged(q) || SameAt(old(source), source, q)
      ensures ok ==> forall p :: p in source ==> !IsMoved(p)
      ensures forall q :: q in instance ==> IsManaged(q) || Outside(plan, q)
    {
      hide WriteAll, MovedPart, Stripped, IsManaged, IsMoved, Plan.Valid, Outside;
      ghost var s0 := source;
      present := true;
      ghost var i0 := instance;
      ok := PutAll(plan.git);
      ghost var i1 := instance;
      TidyGit(plan, i0, i1);
      if !ok { return; }
      if AGENTS in source {
        ok := PutInstance(AGENTS, source[AGENTS]);
      }
      ghost var i2 := instance;
      TidyAgents(plan, i1, i2);
      if !ok { return; }
      ok := MoveTrees();
      TidyMoved(plan, s0, source, i2, instance);
    }

    /** Everything up to the archive: instance started and configured, source
        overlaid, workspace written. */
    method Work(plan: Plan) returns (ok: bool)
      requires plan.Valid() && instance == map[]
      modifies `source, `instance, `present, `faulty
      ensures present
      ensures ok ==> source == SourceAfter(old(source), plan) && instance == InstanceFilled(old(source), plan)
      ensures ok ==> Arrived(old(source), plan, [], instance)
      ensures ok ==> faulty == old(faulty)
      ensures !ok ==> faulty
      ensures forall q :: IsManaged(q) || SameAt(old(source), source, q)
      ensures forall q :: q in instance ==> IsManaged(q) || Outside(plan, q)
    {
      hide Configured, MovedPart, Stripped, Started, Overlaid, IsManaged, IsMoved, Plan.Valid, Outside, Arrived;
      ghost var s0 := source;
      ok := StartInstance(plan);
      ghost var s3, i3 := source, instance;
      if !ok { return; }
      ok := Configure(plan);
      ghost var i4 := instance;
      TidyTeam(plan, i3, i4);
      if !ok { return; }
      ok := Overlay(plan);
      assert forall q :: q == LINK || q == AGENTS || SameAt(s3, source, q);
      OverlayInside(s0, s3, source);
      if !ok { return; }
      ghost var i5 := instance;
      ok := PutInstance(plan.workspace.path, plan.workspace.data);
      TidyWorkspace(plan, i5, instance);
      FilledArrived(s0, plan);
    }

    /** Strips what is left of the moved trees and writes the member overlay. */
    method Overlay(plan: Plan) returns (ok: bool)
      requires forall p :: p in source ==> !IsMoved(p)
      modifies `source, `faulty
      ensures ok ==> source == Overlaid(old(source), plan) && faulty == old(faulty)
      ensures !ok ==> faulty
      ensures forall q :: q == LINK || q == AGENTS || SameAt(old(source), source, q)
    {
      ghost var start := source;
      ok := PutSource(LINK, plan.link);
      if !ok { return; }
      ghost var was := source;
      ok := PutSource(AGENTS, plan.overlay(if AGENTS in source then Some(source[AGENTS]) else None));
      forall q ensures q == LINK || q == AGENTS || SameAt(start, source, q) {
        assert q == AGENTS || SameAt(was, source, q);
      }
    }

    /** Empties the instance of whatever the migration brought. */
    method CleanInstance(created: bool)
      modifies `instance, `present
      ensures created ==> !present && instance == map[]
      ensures !created ==> present == old(present) && instance == map p | p in old(instance) && !IsManaged(p) :: old(instance)[p]
    {
      if created {
        present, instance := false, map[];
      } else {
        ghost var start := instance;
        for i := 0 to |MANAGED|
          invariant present == old(present)
          invariant forall p :: p in instance ==> p in start && instance[p] == start[p]
          invariant forall j, p :: 0 <= j < i && Under(MANAGED[j], p) ==> p !in instance
          invariant forall p :: p in start && (forall j :: 0 <= j < i ==> !Under(MANAGED[j], p)) ==> p in instance
        {
          instance := Removed(instance, MANAGED[i]);
        }
        hide MANAGED, IsManaged;
        forall p ensures p in instance <==> p in start && !IsManaged(p) {
          SomeName(p);
        }
      }
    }

    /** The migration. What a failure leaves goes by the stage it came in: only a
        piece of the backup directory, nothing, what was left of the backup, or
        the stripped source; `broken` is the source as the failure left it. Other
        files of the source never change. */
    method Migrate(plan: Plan) returns (ok: bool, ghost broken: Tree)
      requires plan.Valid() && instance == map[] && !Exists(source, [plan.backup])
      modifies this
      ensures faulty == !ok
      ensures forall q :: IsManaged(q) || Under([plan.backup], q) || SameAt(old(source), source, q)
      ensures ok ==> source == SourceAfter(old(source), plan) && present && stage.Archived?
      ensures ok ==> instance == InstanceAfter(old(source), plan, plan.pack(ManagedPart(old(source))))
      ensures ok ==> Migrated(old(source), plan, plan.pack(ManagedPart(old(source))), source, instance)
      ensures !ok && stage.BackingUp? ==> instance == map[] && present == old(present)
      ensures !ok && stage.BackingUp? ==> forall q :: Under([plan.backup], q) || SameAt(old(source), source, q)
      ensures !ok && stage.Working? ==> source == old(source)
      ensures !ok && stage.Removing? ==> Remains(old(source), plan, broken)
      ensures !ok && stage.Removing? ==> source == RestoredFrom(broken, [plan.backup])
      ensures !ok && stage.Archived? ==> source == SourceAfter(old(source), plan)
      ensures !ok && !stage.BackingUp? && !old(present) ==> !present && instance == map[]
      ensures !ok && !stage.BackingUp? ==> forall p :: p in instance ==> !IsManaged(p) && Outside(plan, p)
    {
      hide IsManaged, IsMoved, Plan.Valid, SourceAfter, InstanceFilled, MovedPart, Stripped, HasBackup, BackupIn,
        ManagedPart, RestoredFrom, Remains, Migrated;
      PlanFacts(plan);
      var b := [plan.backup];
      ghost var before := source;
      broken, faulty := source, false;
      ok := BackupTrees(b);
      if !ok { return; }
      ghost var safe := source;
      var created, backupThere := !present, true;
      ok := Work(plan);
      ghost var worked := source;
      SafeStays(before, safe, source, b);
      if ok {
        var archived := plan.pack(BackupIn(source, b));
        BackupIsManagedPart(before, source, b);
        ghost var filled := instance;
        ok := PutInstance(plan.archive, archived);
        StaysOutside(plan, plan.archive, filled, instance);
        if ok {
          ok := RemoveBackup(b);
          if ok {
            backupThere := false;
            CleanSource(plan, before, safe, source, b);
            SourceAfterInside(before, plan);
            filled := instance;
            ok := PutInstance(plan.note.path, plan.note.data);
            StaysOutside(plan, plan.note.path, filled, instance);
            if ok {
              InstanceSame(plan, before, safe, b);
              MigratedMeans(before, plan, archived);
              return;
            }
          }
        }
      }
      broken := source;
      if backupThere {
        if stage.Working? {
          RestoreIsExact(before, source, b);
        } else {
          PartialBackup(before, plan, safe, worked, source);
          RemainsFrame(before, plan, source);
        }
        RestoreTrees(b);
      }
      CleanInstance(created);
    }
  }

  /** Files of an instance that are not managed: version control and workspace. */
  ghost predicate Outside(plan: Plan, p: Path) {
    p == plan.workspace.path || exists w :: w in plan.git && w.path == p
  }

  lemma PlanFacts(plan: Plan)
    requires plan.Valid()
    ensures !IsManaged([plan.backup]) && Under(AI_TEAM, plan.archive) && Under(AI_TEAM, plan.note.path)
  {
    assert plan.note in plan.profile + [plan.state] + plan.catalog + [plan.note];
  }

  lemma TidyGit(plan: Plan, was: Tree, now: Tree)
    requires plan.Valid() && was == map[]
    requires forall q :: (exists w :: w in plan.git && w.path == q) || SameAt(was, now, q)
    ensures forall q :: q in now ==> Outside(plan, q) && !IsManaged(q) && !IsMoved(q)
  {
    forall q | q in now ensures Outside(plan, q) && !IsManaged(q) && !IsMoved(q) {
      assert !SameAt(was, now, q);
    }
  }

  lemma TidyAgents(plan: Plan, was: Tree, now: Tree)
    requires forall q :: q in was ==> Outside(plan, q) && !IsManaged(q) && !IsMoved(q)
    requires forall q :: q == AGENTS || SameAt(was, now, q)
    ensures forall q :: q in now ==> (IsManaged(q) || Outside(plan, q)) && !IsMoved(q)
  {
    forall q | q in now ensures (IsManaged(q) || Outside(plan, q)) && !IsMoved(q) {
      assert q == AGENTS || SameAt(was, now, q);
    }
  }

  lemma TidyMoved(plan: Plan, s0: Tree, s3: Tree, was: Tree, now: Tree)
    requires forall q :: q in was ==> (IsManaged(q) || Outside(plan, q)) && !IsMoved(q)
    requires forall q :: IsMoved(q) || (SameAt(s0, s3, q) && SameAt(was, now, q))
    ensures forall q :: q in now ==> IsManaged(q) || Outside(plan, q)
    ensures forall q :: IsManaged(q) || SameAt(s0, s3, q)
    ensures s3 == Stripped(s0) ==> forall p :: p in s3 ==> !IsMoved(p)
  {
    forall q ensures q in now ==> IsManaged(q) || Outside(plan, q) {
      assert IsMoved(q) || SameAt(was, now, q);
      assert IsMoved(q) ==> IsManaged(q);
    }
    forall q ensures IsManaged(q) || SameAt(s0, s3, q) {
      assert IsMoved(q) || SameAt(s0, s3, q);
    }
  }

  lemma TidyTeam(plan: Plan, was: Tree, now: Tree)
    requires forall q :: q in was ==> IsManaged(q) || Outside(plan, q)
    requires forall q :: Under(AI_TEAM, q) || SameAt(was, now, q)
    ensures forall q :: q in now ==> IsManaged(q) || Outside(plan, q)
  {
    forall q | q in now ensures IsManaged(q) || Outside(plan, q) {
      ManagedNames(q);
      assert Under(AI_TEAM, q) || SameAt(was, now, q);
    }
  }

  lemma TidyWorkspace(plan: Plan, was: Tree, now: Tree)
    requires forall q :: q in was ==> IsManaged(q) || Outside(plan, q)
    requires forall q :: q == plan.workspace.path || SameAt(was, now, q)
    ensures forall q :: q in now ==> IsManaged(q) || Outside(plan, q)
  {
    forall q | q in now ensures IsManaged(q) || Outside(plan, q) {
      assert q == plan.workspace.path || SameAt(was, now, q);
    }
  }

  lemma StaysOutside(plan: Plan, path: Path, was: Tree, now: Tree)
    requires Under(AI_TEAM, path)
    requires forall q :: q in was ==> IsManaged(q) || Outside(plan, q)
    requires forall q :: q == path || SameAt(was, now, q)
    ensures forall q :: q in now ==> IsManaged(q) || Outside(plan, q)
  {
    ManagedNames(path);
    forall q | q in now ensures IsManaged(q) || Outside(plan, q) {
      assert q == path || SameAt(was, now, q);
    }
  }

  lemma OverlayInside(s0: Tree, was: Tree, now: Tree)
    requires forall q :: IsManaged(q) || SameAt(s0, was, q)
    requires forall q :: q == LINK || q == AGENTS || SameAt(was, now, q)
    ensures forall q :: IsManaged(q) || SameAt(s0, now, q)
  {
    forall q ensures IsManaged(q) || SameAt(s0, now, q) {
      assert IsManaged(q) || SameAt(s0, was, q);
      assert q == LINK || q == AGENTS || SameAt(was, now, q);
    }
  }

  lemma BackupIsManagedPart(before: Tree, now: Tree, b: Path)
    requires |b| == 1 && HasBackup(before, now, b)
    ensures BackupIn(now, b) == ManagedPart(before)
  {
    hide IsManaged;
    var part, goal := BackupIn(now, b), ManagedPart(before);
    forall p ensures SameAt(part, goal, p) {
      assert Image(b, [], b + p) == p by { assert (b + p)[|b|..] == p; }
    }
    SameEverywhere(part, goal);
  }

  lemma SourceAfterSame(plan: Plan, before: Tree, safe: Tree, b: Path)
    requires |b| == 1 && !IsManaged(b)
    requires forall p :: Under(b, p) || SameAt(before, safe, p)
    ensures forall p :: Under(b, p) || SameAt(SourceAfter(before, plan), SourceAfter(safe, plan), p)
  {
    assert SameAt(before, safe, AGENTS) by { OneName(b, AGENTS); }
    forall p ensures Under(b, p) || SameAt(SourceAfter(before, plan), SourceAfter(safe, plan), p) {
      assert Under(b, p) || SameAt(before, safe, p);
    }
  }

  lemma CleanSource(plan: Plan, before: Tree, safe: Tree, now: Tree, b: Path)
    requires |b| == 1 && !IsManaged(b) && !Exists(before, b)
    requires forall p :: Under(b, p) || SameAt(before, safe, p)
    requires now == Removed(SourceAfter(safe, plan), b)
    ensures now == SourceAfter(before, plan)
  {
    SourceAfterSame(plan, before, safe, b);
    var goal := SourceAfter(before, plan);
    forall p ensures SameAt(now, goal, p) {
      OneName(b, p);
      assert Under(b, p) || SameAt(goal, SourceAfter(safe, plan), p);
      assert Under(b, p) ==> p !in goal;
    }
    SameEverywhere(now, goal);
  }

  lemma InstanceSame(plan: Plan, before: Tree, safe: Tree, b: Path)
    requires |b| == 1 && !IsManaged(b)
    requires forall p :: Under(b, p) || SameAt(before, safe, p)
    ensures InstanceFilled(safe, plan) == InstanceFilled(before, plan)
  {
    hide Configured, WriteAll;
    assert SameAt(before, safe, AGENTS) by { OneName(b, AGENTS); }
    forall p ensures SameAt(MovedPart(before), MovedPart(safe), p) {
      OneName(b, p);
      assert Under(b, p) || SameAt(before, safe, p);
    }
    SameEverywhere(MovedPart(before), MovedPart(safe));
  }

  /** What a failing removal can leave: the source as migrated, and in the backup
      copies of the managed files of `before`, perhaps not of all. */
  ghost predicate Remains(before: Tree, plan: Plan, broken: Tree) {
    && (forall p :: IsManaged(p) && [plan.backup] + p in broken ==>
          p in before && broken[[plan.backup] + p] == before[p])
    && forall p :: Under([plan.backup], p) || SameAt(SourceAfter(before, plan), broken, p)
  }

  /** A backup of which parts are gone still holds nothing but copies. */
  lemma PartialBackup(before: Tree, plan: Plan, whole: Tree, mid: Tree, broken: Tree)
    requires !IsManaged([plan.backup]) && Safe(before, whole, [plan.backup]) && mid == SourceAfter(whole, plan)
    requires forall q :: Under([plan.backup], q) || SameAt(before, whole, q)
    requires forall q :: q in broken ==> q in mid && broken[q] == mid[q]
    requires forall q :: Under([plan.backup], q) || SameAt(mid, broken, q)
    ensures Remains(before, plan, broken)
  {
    var b := [plan.backup];
    SourceAfterInside(whole, plan);
    forall p | IsManaged(p) && b + p in broken ensures p in before && broken[b + p] == before[p] {
      assert (b + p)[0] == b[0];
      assert SameAt(whole, mid, b + p);
    }
    SourceAfterSame(plan, before, whole, b);
    hide IsManaged, SourceAfter;
    forall p ensures Under(b, p) || SameAt(SourceAfter(before, plan), broken, p) {
      assert Under(b, p) || SameAt(SourceAfter(before, plan), mid, p);
      assert Under(b, p) || SameAt(mid, broken, p);
    }
  }

  lemma RemainsFrame(before: Tree, plan: Plan, broken: Tree)
    requires Remains(before, plan, broken)
    ensures var b := [plan.backup];
      forall q :: IsManaged(q) || Under(b, q) || (SameAt(before, broken, q) && SameAt(before, RestoredFrom(broken, b), q))
  {
    hide IsManaged, SourceAfter;
    var b := [plan.backup];
    SourceAfterInside(before, plan);
    forall q ensures IsManaged(q) || Under(b, q) || (SameAt(before, broken, q) && SameAt(before, RestoredFrom(broken, b), q)) {
      assert Under(b, q) || SameAt(SourceAfter(before, plan), broken, q);
      assert IsManaged(q) || SameAt(before, SourceAfter(before, plan), q);
    }
  }

  /** Restoring from what is left of the backup yields original files only, and the
      very source exactly when no managed file has lost its copy. */
  lemma RestoredIff(before: Tree, plan: Plan, broken: Tree)
    requires plan.Valid() && !Exists(before, [plan.backup]) && Remains(before, plan, broken)
    ensures var after := RestoredFrom(broken, [plan.backup]);
      && (forall p :: p in after ==> p in before && after[p] == before[p])
      && (after == before <==> forall p :: p in before && IsManaged(p) ==> [plan.backup] + p in broken)
  {
    hide IsManaged;
    var b := [plan.backup];
    var after := RestoredFrom(broken, b);
    RemainsFrame(before, plan, broken);
    forall p | p in after ensures p in before && after[p] == before[p] {
      assert IsManaged(p) || Under(b, p) || SameAt(before, broken, p);
    }
    if forall p :: p in before && IsManaged(p) ==> b + p in broken {
      forall p | IsManaged(p) ensures (b + p in broken <==> p in before) && (p in before ==> broken[b + p] == before[p]) {
      }
      RestoreIsExact(before, broken, b);
    } else {
      var p :| p in before && IsManaged(p) && b + p !in broken;
      assert p !in after;
    }
  }

  /** Every failure while the backup is removed gives the source back, whatever is
      gone by then, exactly when the source had no managed file at all. */
  lemma RemovalUndoneIff(before: Tree, plan: Plan)
    requires plan.Valid() && !Exists(before, [plan.backup])
    ensures (forall broken :: Remains(before, plan, broken) ==> RestoredFrom(broken, [plan.backup]) == before)
            <==> forall p :: p in before ==> !IsManaged(p)
  {
    hide IsManaged, RestoredFrom, SourceAfter;
    if p :| p in before && IsManaged(p) {
      var worst := SourceAfter(before, plan);
      NoneLeft(before, plan);
      RestoredIff(before, plan, worst);
      assert [plan.backup] + p !in worst;
    }
    forall broken | Remains(before, plan, broken)
      ensures (forall p :: p in before ==> !IsManaged(p)) ==> RestoredFrom(broken, [plan.backup]) == before
    {
      RestoredIff(before, plan, broken);
    }
  }

  /** Nothing at all may be left of the backup. */
  lemma NoneLeft(before: Tree, plan: Plan)
    requires plan.Valid() && !Exists(before, [plan.backup])
    ensures forall p :: [plan.backup] + p !in SourceAfter(before, plan)
    ensures Remains(before, plan, SourceAfter(before, plan))
  {
    var b := [plan.backup];
    forall p ensures b + p !in SourceAfter(before, plan) {
      assert Under(b, b + p) && (b + p)[0] == b[0];
      assert !IsManaged(b + p);
      SourceAfterInside(before, plan);
    }
  }

  /** Behind the removal nothing is given back: of the moved trees only the link
      is left in the source, so a source that had no link is not what it was. */
  lemma ArchivedLoses(before: Tree, plan: Plan)
    ensures forall p :: p in SourceAfter(before, plan) && IsMoved(p) ==> p == LINK
    ensures PROFILE !in SourceAfter(before, plan)
    ensures LINK !in before ==> SourceAfter(before, plan) != before
  {
    assert PROFILE[1] != (LINK)[1];
    assert IsMoved(PROFILE) && !IsMoved(AGENTS);
  }

  lemma SourceAfterInside(before: Tree, plan: Plan)
    ensures forall q :: IsManaged(q) || SameAt(before, SourceAfter(before, plan), q)
  {
    assert IsManaged(AGENTS) && IsManaged(LINK);
  }

  lemma InTeam(plan: Plan, ws: seq<Write>, start: Tree, was: Tree, now: Tree)
    requires plan.Valid() && (ws == plan.profile || ws == [] || ws == [plan.state] || ws == plan.catalog)
    requires forall q :: Under(AI_TEAM, q) || SameAt(start, was, q)
    requires forall q :: Under(AI_TEAM, q) || (exists w :: w in ws && w.path == q) || SameAt(was, now, q)
    ensures forall q :: Under(AI_TEAM, q) || SameAt(start, now, q)
  {
    assert plan.state in plan.profile + [plan.state] + plan.catalog + [plan.note];
    forall q ensures Under(AI_TEAM, q) || SameAt(start, now, q) {
      assert Under(AI_TEAM, q) || SameAt(start, was, q);
      if w :| w in ws && w.path == q {
        assert w in plan.profile + [plan.state] + plan.catalog + [plan.note];
      }
    }
  }

  lemma RelocateInside(t: Tree, ensemble: string, n: string)
    ensures forall q :: Under(AI_TEAM, q) || SameAt(t, RelocateOne(t, ensemble, n), q)
  {
    forall q | !Under(AI_TEAM, q) ensures SameAt(t, RelocateOne(t, ensemble, n), q) {
      OneName(AI_TEAM, q);
      Places(ensemble, n, q);
    }
  }

  // ------------------------------------------------- moving, tree by tree

  ghost predicate MovedPartly(s0: Tree, i0: Tree, s: Tree, i: Tree, k: nat)
    requires k <= |MOVED|
  {
    && (forall j, p :: 0 <= j < k && Under(MOVED[j], p) ==> p !in s && SameAt(s0, i, p))
    && (forall p :: (forall j :: 0 <= j < k ==> !Under(MOVED[j], p)) ==> SameAt(s0, s, p) && SameAt(i0, i, p))
  }

  lemma MovedName(p: Path)
    ensures IsMoved(p) <==> exists j :: 0 <= j < |MOVED| && Under(MOVED[j], p)
  {
    ManagedNames(p);
    assert MOVED[0] == AI_TEAM && MOVED[1] == SCRIPTS && MOVED[2] == CURSOR && MOVED[3] == CLAUDE;
  }

  lemma MovedApart(i: nat, j: nat, p: Path)
    requires i < |MOVED| && j < |MOVED| && i != j && Under(MOVED[j], p)
    ensures !Under(MOVED[i], p)
  {
    OneName(MOVED[i], p);
    OneName(MOVED[j], p);
  }

  lemma MovedNone(s0: Tree, i0: Tree, s: Tree, i: Tree, k: nat)
    requires k < |MOVED| && MovedPartly(s0, i0, s, i, k)
    requires forall p :: p in i0 ==> !IsMoved(p)
    ensures !Exists(i, MOVED[k]) && (forall p :: Under(MOVED[k], p) ==> SameAt(s0, s, p) && p !in i)
    ensures forall p :: !IsMoved(p) ==> SameAt(s0, s, p) && SameAt(i0, i, p)
  {
    hide IsMoved;
    forall p | Under(MOVED[k], p) ensures SameAt(s0, s, p) && p !in i {
      forall j | 0 <= j < k ensures !Under(MOVED[j], p) { MovedApart(j, k, p); }
      MovedName(p);
    }
    forall p | !IsMoved(p) ensures SameAt(s0, s, p) && SameAt(i0, i, p) {
      MovedName(p);
    }
  }

  lemma MovedMore(s0: Tree, i0: Tree, s1: Tree, i1: Tree, s: Tree, i: Tree, k: nat)
    requires k < |MOVED| && MovedPartly(s0, i0, s1, i1, k)
    requires forall p :: Under(MOVED[k], p) ==> SameAt(s0, s1, p) && p !in i1
    requires s == Removed(s1, MOVED[k]) && forall q :: Under(MOVED[k], q) ==>
      SameAt(s1, i, q) || (q !in s1 && SameAt(i1, i, q))
    requires forall q :: Under(MOVED[k], q) || (SameAt(s1, s, q) && SameAt(i1, i, q))
    ensures MovedPartly(s0, i0, s, i, k + 1)
  {
    forall j, p | 0 <= j < k && Under(MOVED[j], p) ensures p !in s && SameAt(s0, i, p) {
      MovedApart(k, j, p);
      assert SameAt(i1, i, p);
    }
    forall p | Under(MOVED[k], p) ensures p !in s && SameAt(s0, i, p) {
    }
    forall p | forall j :: 0 <= j < k + 1 ==> !Under(MOVED[j], p) ensures SameAt(s0, s, p) && SameAt(i0, i, p) {
      assert SameAt(s0, s1, p) && SameAt(i0, i1, p);
      assert !Under(MOVED[k], p);
    }
  }

  lemma MovedAll(s0: Tree, i0: Tree, s: Tree, i: Tree)
    requires MovedPartly(s0, i0, s, i, |MOVED|)
    requires forall p :: p in i0 ==> !IsMoved(p)
    ensures s == Stripped(s0) && i == i0 + MovedPart(s0)
  {
    hide IsMoved, MOVED;
    forall p ensures SameAt(s, Stripped(s0), p) && SameAt(i, i0 + MovedPart(s0), p) {
      MovedAt(s0, i0, s, i, p);
    }
    SameEverywhere(s, Stripped(s0));
    SameEverywhere(i, i0 + MovedPart(s0));
  }

  lemma MovedAt(s0: Tree, i0: Tree, s: Tree, i: Tree, p: Path)
    requires MovedPartly(s0, i0, s, i, |MOVED|)
    ensures if IsMoved(p) then p !in s && SameAt(s0, i, p) else SameAt(s0, s, p) && SameAt(i0, i, p)
  {
    hide IsMoved;
    MovedName(p);
  }

  /** The backup holds nothing but copies, and all of the first `k` trees. */
  ghost predicate BackupPart(before: Tree, now: Tree, b: Path, k: nat)
    requires |b| == 1 && k <= |MANAGED|
  {
    && (forall p :: b + p in now ==> p in before && now[b + p] == before[p])
    && (forall j, p :: 0 <= j < k && Under(MANAGED[j], p) && p in before ==> b + p in now)
  }

  lemma BackupMore(before: Tree, was: Tree, now: Tree, b: Path, i: nat)
    requires |b| == 1 && !IsManaged(b) && i < |MANAGED| && BackupPart(before, was, b, i)
    requires forall q :: Under(b, q) || SameAt(before, was, q)
    requires forall p :: Under(MANAGED[i], p) && p in was ==> b + p in now && now[b + p] == was[p]
    requires forall q :: (exists p :: Under(MANAGED[i], p) && p in was && q == b + p) || SameAt(was, now, q)
    ensures BackupPart(before, now, b, i + 1)
  {
    forall p | b + p in now ensures p in before && now[b + p] == before[p] {
      if !SameAt(was, now, b + p) {
        var r :| Under(MANAGED[i], r) && r in was && b + p == b + r;
        assert (b + p)[1..] == p && (b + r)[1..] == r;
        assert r[0] == MANAGED[i][0] && IsManaged(MANAGED[i]);
        assert SameAt(before, was, r);
      }
    }
    forall j, p | 0 <= j < i + 1 && Under(MANAGED[j], p) && p in before ensures b + p in now {
      assert p[0] == MANAGED[j][0] && IsManaged(MANAGED[j]);
      assert SameAt(before, was, p);
      if j < i {
        NamesApart(i, j, p);
        forall r | b + p == b + r ensures r == p {
          assert (b + p)[1..] == p && (b + r)[1..] == r;
        }
        assert SameAt(was, now, b + p);
      }
    }
  }

  lemma BackupWhole(before: Tree, now: Tree, b: Path)
    requires |b| == 1 && BackupPart(before, now, b, |MANAGED|)
    requires forall q :: Under(b, q) || SameAt(before, now, q)
    ensures Safe(before, now, b)
  {
    forall p | IsManaged(p) ensures (b + p in now <==> p in before) && (p in before ==> now[b + p] == before[p]) {
      SomeName(p);
    }
  }

  /** The first `k` managed trees are those of the backup, the rest is as it was. */
  ghost predicate RestoredPart(was: Tree, now: Tree, b: Path, k: nat)
    requires k <= |MANAGED|
  {
    && (forall j, p :: 0 <= j < k && Under(MANAGED[j], p) ==> (p in now <==> b + p in was) && (p in now ==> now[p] == was[b + p]))
    && (forall p :: (forall j :: 0 <= j < k ==> !Under(MANAGED[j], p)) ==> SameAt(was, now, p))
  }

  lemma RestoreMore(was: Tree, mid: Tree, now: Tree, b: Path, i: nat)
    requires |b| == 1 && !IsManaged(b) && i < |MANAGED| && RestoredPart(was, mid, b, i)
    requires var n := MANAGED[i]; var bare := Removed(mid, n);
      now == if Exists(bare, b + n) then Copied(bare, b + n, n) else bare
    ensures RestoredPart(was, now, b, i + 1)
  {
    var n := MANAGED[i];
    var bare := Removed(mid, n);
    forall p | Under(n, p) ensures (p in now <==> b + p in was) && (p in now ==> now[p] == was[b + p]) {
      BackupKept(was, mid, b, i, p);
      assert b + p == b + n + p[|n|..] && Under(b + n, b + p);
      assert Image(b + n, n, b + p) == p && Image(n, b + n, p) == b + p;
      assert SameAt(bare, mid, b + p);
      if b + p in bare { CopiedAt(bare, b + n, n, b + p); }
    }
    forall p | !Under(n, p) ensures SameAt(mid, now, p) {
    }
    forall j, p | 0 <= j < i && Under(MANAGED[j], p)
      ensures (p in now <==> b + p in was) && (p in now ==> now[p] == was[b + p])
    {
      NamesApart(i, j, p);
      assert SameAt(mid, now, p);
    }
    forall p | forall j :: 0 <= j < i + 1 ==> !Under(MANAGED[j], p) ensures SameAt(was, now, p) {
      assert SameAt(was, mid, p) && SameAt(mid, now, p);
    }
  }

  lemma NamesApart(i: nat, j: nat, p: Path)
    requires j < i < |MANAGED| && Under(MANAGED[j], p)
    ensures !Under(MANAGED[i], p)
  {
    OneName(MANAGED[i], p);
    OneName(MANAGED[j], p);
  }

  /** Restoring never touches the backup itself. */
  lemma BackupKept(was: Tree, mid: Tree, b: Path, i: nat, p: Path)
    requires |b| == 1 && !IsManaged(b) && i < |MANAGED| && RestoredPart(was, mid, b, i)
    ensures SameAt(was, mid, b + p)
    ensures !Under(MANAGED[i], b + p)
  {
    forall j | 0 <= j < |MANAGED| ensures !Under(MANAGED[j], b + p) {
      OneName(MANAGED[j], b + p);
      assert (b + p)[0] == b[0] && IsManaged(MANAGED[j]);
    }
  }

  lemma SomeName(p: Path)
    ensures IsManaged(p) <==> exists j :: 0 <= j < |MANAGED| && Under(MANAGED[j], p)
  {
    ManagedNames(p);
    assert MANAGED[0] == AI_TEAM && MANAGED[1] == SCRIPTS && MANAGED[2] == CURSOR && MANAGED[3] == CLAUDE && MANAGED[4] == AGENTS;
  }

  lemma RestoreWhole(was: Tree, now: Tree, b: Path)
    requires |b| == 1 && !IsManaged(b) && RestoredPart(was, now, b, |MANAGED|)
    ensures Removed(now, b) == RestoredFrom(was, b)
  {
    hide IsManaged, RestoredPart, MANAGED;
    var after, goal := Removed(now, b), RestoredFrom(was, b);
    forall p ensures SameAt(after, goal, p) {
      RestoredAt(was, now, b, p);
      ManagedOutside(b, p);
      if IsManaged(p) {
        assert Image(b, [], b + p) == p by { assert (b + p)[|b|..] == p; }
      }
    }
    SameEverywhere(after, goal);
  }

  lemma RestoredAt(was: Tree, now: Tree, b: Path, p: Path)
    requires RestoredPart(was, now, b, |MANAGED|)
    ensures if IsManaged(p) then (p in now <==> b + p in was) && (p in now ==> now[p] == was[b + p])
            else SameAt(was, now, p)
  {
    hide IsManaged;
    SomeName(p);
  }

  lemma ManagedOutside(b: Path, p: Path)
    requires |b| == 1 && !IsManaged(b)
    ensures IsManaged(p) ==> !Under(b, p)
  {
    OneName(b, p);
  }
}
