/** Relocation of the trees of an old installation: copied first, the old ones
    removed once the whole update has succeeded. */
module Layout {
  import opened Trees

  datatype Relocation = Relocation(src: Path, dst: Path)

  const RUNTIME: Path := [".ai-team", "runtime", "governed_ai"]
  const CURSOR: Path := ["adapters", "cursor"]
  const CLAUDE_CODE: Path := ["adapters", "claude_code"]

  const CORE_MOVE := Relocation(["src", "governed_ai"], RUNTIME)
  const CURSOR_MOVE := Relocation(CURSOR, RUNTIME + CURSOR)
  const CLAUDE_MOVE := Relocation(CLAUDE_CODE, RUNTIME + CLAUDE_CODE)
  const RELOCATIONS := [CORE_MOVE, CURSOR_MOVE, CLAUDE_MOVE]

  predicate Pending(t: Tree, m: Relocation) {
    IsDir(t, m.src) && !Exists(t, m.dst)
  }

  /** The relocations of `table` still to be done, in order. */
  function PlanMoves(t: Tree, table: seq<Relocation>): (moves: seq<Relocation>)
    ensures forall m :: m in moves <==> m in table && Pending(t, m)
  {
    if table == [] then []
    else
      var n := |table| - 1;
      var before := PlanMoves(t, table[..n]);
      if Pending(t, table[n]) then before + [table[n]] else before
  }

  /** Copies tree after tree, skipping one whose place has been taken meanwhile. */
  function ApplyMoves(t: Tree, moves: seq<Relocation>): Tree {
    if moves == [] then t
    else
      var n := |moves| - 1;
      var before := ApplyMoves(t, moves[..n]);
      if Exists(before, moves[n].dst) then before else Copied(before, moves[n].src, moves[n].dst)
  }

  function RemoveSources(t: Tree, moves: seq<Relocation>): Tree {
    if moves == [] then t
    else Removed(RemoveSources(t, moves[..|moves| - 1]), moves[|moves| - 1].src)
  }

  /** The files that carrying out `moves` may create. */
  function Destinations(t: Tree, moves: seq<Relocation>): set<Path> {
    set m, q | m in moves && q in Images(t, m.src, m.dst) :: q
  }

  predicate UnderSome(moves: seq<Relocation>, p: Path) {
    exists m :: m in moves && Under(m.dst, p)
  }

  lemma {:induction false} MovesStayInside(t: Tree, moves: seq<Relocation>, p: Path)
    requires !UnderSome(moves, p)
    ensures SameAt(t, ApplyMoves(t, moves), p)
  {
    if moves != [] {
      var n := |moves| - 1;
      assert moves[n] in moves;
      assert !UnderSome(moves[..n], p);
      MovesStayInside(t, moves[..n], p);
    }
  }

  // ------------------------------------------- what the nested places entail

  lemma NestedAt(t: Tree, src: Path, dst: Path, inner: Path, rel: Path)
    requires !Exists(t, dst)
    ensures var p, q := src + inner + rel, dst + inner + rel; var t' := Copied(t, src, dst);
      (q in t' <==> p in t) && (p in t ==> t'[q] == t[p])
  {
    var p, q := src + inner + rel, dst + inner + rel;
    assert p == src + (inner + rel) && q == dst + (inner + rel);
    assert Under(src, p) && Under(dst, q) && Image(src, dst, p) == q && Image(dst, src, q) == p;
    if p in t { CopiedAt(t, src, dst, p); }
  }

  /** Copying an outer tree fills the place of an inner one exactly when the
      outer tree has something at the corresponding spot. */
  lemma NestedPlace(t: Tree, src: Path, dst: Path, inner: Path)
    requires !Exists(t, dst)
    ensures Exists(Copied(t, src, dst), dst + inner) <==> Exists(t, src + inner)
  {
    hide Copied;
    var t' := Copied(t, src, dst);
    if Exists(t, src + inner) {
      var p :| p in t && Under(src + inner, p);
      var rel := p[|src + inner|..];
      assert p == src + inner + rel;
      NestedAt(t, src, dst, inner, rel);
      assert Under(dst + inner, dst + inner + rel);
    }
    if Exists(t', dst + inner) {
      var q :| q in t' && Under(dst + inner, q);
      var rel := q[|dst + inner|..];
      assert q == dst + inner + rel;
      NestedAt(t, src, dst, inner, rel);
      assert Under(src + inner, src + inner + rel);
    }
  }

  ghost predicate HasFile(t: Tree, p: Path, content: string) {
    p in t && t[p] == content
  }

  lemma Distinctness()
    ensures !Under(RUNTIME, CURSOR) && !Under(RUNTIME, CLAUDE_CODE)
    ensures forall rel :: !Under(RUNTIME, CURSOR + rel) && !Under(RUNTIME, CLAUDE_CODE + rel)
    ensures forall rel :: !Under(RUNTIME + CURSOR, CLAUDE_CODE + rel)
    ensures forall rel :: !Under(RUNTIME + CURSOR, RUNTIME + CLAUDE_CODE + rel)
    ensures forall rel :: !Under(RUNTIME + CLAUDE_CODE, RUNTIME + CURSOR + rel)
  {
    forall rel
      ensures !Under(RUNTIME, CURSOR + rel) && !Under(RUNTIME, CLAUDE_CODE + rel)
      ensures !Under(RUNTIME + CURSOR, CLAUDE_CODE + rel)
      ensures !Under(RUNTIME + CURSOR, RUNTIME + CLAUDE_CODE + rel)
      ensures !Under(RUNTIME + CLAUDE_CODE, RUNTIME + CURSOR + rel)
    {
      assert RUNTIME[0] != (CURSOR + rel)[0] && RUNTIME[0] != (CLAUDE_CODE + rel)[0];
      assert (RUNTIME + CURSOR)[0] == ".ai-team" && (CLAUDE_CODE + rel)[0] == "adapters";
      assert (RUNTIME + CURSOR)[4] == "cursor" && (RUNTIME + CLAUDE_CODE + rel)[4] == "claude_code";
      assert (RUNTIME + CLAUDE_CODE)[4] == "claude_code" && (RUNTIME + CURSOR + rel)[4] == "cursor";
    }
    assert CURSOR + [] == CURSOR && CLAUDE_CODE + [] == CLAUDE_CODE;
  }

  function If(c: bool, m: Relocation): seq<Relocation> { if c then [m] else [] }

  lemma PlanOf(t: Tree)
    ensures PlanMoves(t, RELOCATIONS) == If(Pending(t, CORE_MOVE), CORE_MOVE)
      + If(Pending(t, CURSOR_MOVE), CURSOR_MOVE) + If(Pending(t, CLAUDE_MOVE), CLAUDE_MOVE)
  {
    PlanNext(t, [], CORE_MOVE);
    PlanNext(t, [CORE_MOVE], CURSOR_MOVE);
    PlanNext(t, [CORE_MOVE] + [CURSOR_MOVE], CLAUDE_MOVE);
    assert RELOCATIONS == [CORE_MOVE] + [CURSOR_MOVE] + [CLAUDE_MOVE];
    assert [] + [CORE_MOVE] == [CORE_MOVE];
  }

  lemma PlanNext(t: Tree, table: seq<Relocation>, m: Relocation)
    ensures PlanMoves(t, table + [m]) == PlanMoves(t, table) + If(Pending(t, m), m)
  {
    assert (table + [m])[..|table|] == table;
  }

  lemma ApplyNext(t: Tree, moves: seq<Relocation>, c: bool, m: Relocation)
    ensures var before := ApplyMoves(t, moves);
      ApplyMoves(t, moves + If(c, m)) ==
      if !c || Exists(before, m.dst) then before else Copied(before, m.src, m.dst)
  {
    assert (moves + [m])[..|moves|] == moves;
    assert moves + [] == moves;
  }

  /** The tree after the three relocations, one at a time. */
  lemma ThreeMoves(t: Tree) returns (core: Tree, cursor: Tree)
    ensures core == if Pending(t, CORE_MOVE) then Copied(t, CORE_MOVE.src, CORE_MOVE.dst) else t
    ensures cursor == if !Pending(t, CURSOR_MOVE) || Exists(core, CURSOR_MOVE.dst) then core
                      else Copied(core, CURSOR_MOVE.src, CURSOR_MOVE.dst)
    ensures ApplyMoves(t, PlanMoves(t, RELOCATIONS)) ==
      if !Pending(t, CLAUDE_MOVE) || Exists(cursor, CLAUDE_MOVE.dst) then cursor
      else Copied(cursor, CLAUDE_MOVE.src, CLAUDE_MOVE.dst)
  {
    hide Copied, PlanMoves, If;
    PlanOf(t);
    var c0, c1, c2 := Pending(t, CORE_MOVE), Pending(t, CURSOR_MOVE), Pending(t, CLAUDE_MOVE);
    ApplyNext(t, [], c0, CORE_MOVE);
    ApplyNext(t, [] + If(c0, CORE_MOVE), c1, CURSOR_MOVE);
    ApplyNext(t, [] + If(c0, CORE_MOVE) + If(c1, CURSOR_MOVE), c2, CLAUDE_MOVE);
    assert [] + If(c0, CORE_MOVE) == If(c0, CORE_MOVE);
    core := if c0 then Copied(t, CORE_MOVE.src, CORE_MOVE.dst) else t;
    cursor := if !c1 || Exists(core, CURSOR_MOVE.dst) then core
              else Copied(core, CURSOR_MOVE.src, CURSOR_MOVE.dst);
  }

  lemma CopyKeeps(t: Tree, src: Path, dst: Path, p: Path)
    requires !Under(dst, p)
    ensures SameAt(t, Copied(t, src, dst), p)
  {
  }

  /** The step that copies `src` to `dst` unless that place is taken. */
  function Step(t: Tree, go: bool, src: Path, dst: Path): Tree {
    if !go || Exists(t, dst) then t else Copied(t, src, dst)
  }

  lemma StepKeeps(t: Tree, go: bool, src: Path, dst: Path, p: Path)
    requires p in t || !Under(dst, p)
    ensures SameAt(t, Step(t, go, src, dst), p)
  {
    if !Exists(t, dst) { CopyKeeps(t, src, dst, p); }
  }

  /** An inner tree arrives file by file, unless the outer copy took its place
      with something else. */
  lemma InnerArrives(t: Tree, go: bool, outer: Path, place: Path, inner: Path, rel: Path)
    requires (go ==> !Exists(t, place)) && !Exists(t, place + inner) && inner + rel in t
    requires !Under(place, inner + rel)
    ensures var t1 := Step(t, go, outer, place);
      var t2 := Step(t1, true, inner, place + inner);
      HasFile(t2, place + inner + rel, t[inner + rel]) <==>
        !go || !Exists(t, outer + inner) || HasFile(t, outer + inner + rel, t[inner + rel])
  {
    var t1 := Step(t, go, outer, place);
    StepKeeps(t, go, outer, place, inner + rel);
    if go {
      NestedPlace(t, outer, place, inner);
      NestedAt(t, outer, place, inner, rel);
    }
    hide Copied;
    if !Exists(t1, place + inner) {
      assert (inner + rel)[|inner|..] == rel;
      CopiedAt(t1, inner, place + inner, inner + rel);
    }
  }

  lemma StepKeepsPlace(t: Tree, go: bool, src: Path, dst: Path, other: Path)
    requires forall rel :: !Under(dst, other + rel)
    ensures Exists(Step(t, go, src, dst), other) <==> Exists(t, other)
  {
    var t' := Step(t, go, src, dst);
    forall p | Under(other, p) ensures SameAt(t, t', p) {
      assert p == other + p[|other|..];
      StepKeeps(t, go, src, dst, p);
    }
  }

  /** Every file of the core tree arrives. */
  lemma CoreArrives(t: Tree, rel: Path)
    requires Pending(t, CORE_MOVE) && CORE_MOVE.src + rel in t
    ensures HasFile(ApplyMoves(t, PlanMoves(t, RELOCATIONS)), RUNTIME + rel, t[CORE_MOVE.src + rel])
  {
    hide Copied, PlanMoves, ApplyMoves;
    var core, cursor := ThreeMoves(t);
    assert CORE_MOVE.src + [] + rel == CORE_MOVE.src + rel && RUNTIME + [] + rel == RUNTIME + rel;
    NestedAt(t, CORE_MOVE.src, RUNTIME, [], rel);
    StepKeeps(core, Pending(t, CURSOR_MOVE), CURSOR_MOVE.src, CURSOR_MOVE.dst, RUNTIME + rel);
    StepKeeps(cursor, Pending(t, CLAUDE_MOVE), CLAUDE_MOVE.src, CLAUDE_MOVE.dst, RUNTIME + rel);
  }

  /** A file of the cursor adapter arrives exactly when the core tree is not
      moved in the same go, or holds nothing at `adapters/cursor`, or the same
      file there. In the other cases the relocation is listed as done, and the
      only copy goes with the old tree. */
  lemma CursorArrivesIff(t: Tree, rel: Path)
    requires Pending(t, CURSOR_MOVE) && CURSOR + rel in t
    ensures HasFile(ApplyMoves(t, PlanMoves(t, RELOCATIONS)), RUNTIME + CURSOR + rel, t[CURSOR + rel]) <==>
      !Pending(t, CORE_MOVE) || !Exists(t, CORE_MOVE.src + CURSOR)
      || HasFile(t, CORE_MOVE.src + CURSOR + rel, t[CURSOR + rel])
  {
    hide Copied, PlanMoves, ApplyMoves;
    Distinctness();
    var core, cursor := ThreeMoves(t);
    InnerArrives(t, Pending(t, CORE_MOVE), CORE_MOVE.src, RUNTIME, CURSOR, rel);
    StepKeeps(cursor, Pending(t, CLAUDE_MOVE), CLAUDE_MOVE.src, CLAUDE_MOVE.dst, RUNTIME + CURSOR + rel);
  }

  lemma ClaudeArrivesIff(t: Tree, rel: Path)
    requires Pending(t, CLAUDE_MOVE) && CLAUDE_CODE + rel in t
    ensures HasFile(ApplyMoves(t, PlanMoves(t, RELOCATIONS)), RUNTIME + CLAUDE_CODE + rel, t[CLAUDE_CODE + rel]) <==>
      !Pending(t, CORE_MOVE) || !Exists(t, CORE_MOVE.src + CLAUDE_CODE)
      || HasFile(t, CORE_MOVE.src + CLAUDE_CODE + rel, t[CLAUDE_CODE + rel])
  {
    hide Copied, PlanMoves, ApplyMoves;
    Distinctness();
    var core, cursor := ThreeMoves(t);
    var go, q := Pending(t, CURSOR_MOVE), RUNTIME + CLAUDE_CODE + rel;
    InnerArrives(t, Pending(t, CORE_MOVE), CORE_MOVE.src, RUNTIME, CLAUDE_CODE, rel);
    StepKeepsPlace(core, go, CURSOR, RUNTIME + CURSOR, RUNTIME + CLAUDE_CODE);
    StepKeeps(core, go, CURSOR, RUNTIME + CURSOR, q);
    StepKeeps(t, Pending(t, CORE_MOVE), CORE_MOVE.src, RUNTIME, CLAUDE_CODE + rel);
    StepKeeps(core, go, CURSOR, RUNTIME + CURSOR, CLAUDE_CODE + rel);
    if !Exists(cursor, CLAUDE_MOVE.dst) {
      assert (CLAUDE_CODE + rel)[|CLAUDE_CODE|..] == rel;
      CopiedAt(cursor, CLAUDE_CODE, CLAUDE_MOVE.dst, CLAUDE_CODE + rel);
      CopiedAt(core, CLAUDE_CODE, CLAUDE_MOVE.dst, CLAUDE_CODE + rel);
    }
  }

  // ------------------------------------------------- an adapter that is lost

  /** An old installation whose core tree carries adapters, beside other ones. */
  const LEGACY: Tree := map[
    ["src", "governed_ai", "adapters", "cursor", "core.py"] := "a", ["adapters", "cursor", "hook.py"] := "b",
    ["src", "governed_ai", "adapters", "claude_code", "core.py"] := "c", ["adapters", "claude_code", "hook.py"] := "d"]

  lemma LegacyPaths(p: Path)
    requires p in LEGACY
    ensures !Under(RUNTIME, p) && p != CORE_MOVE.src && p != CURSOR && p != CLAUDE_CODE
    ensures p != CORE_MOVE.src + CURSOR + ["hook.py"] && p != CORE_MOVE.src + CLAUDE_CODE + ["hook.py"]
  {
    assert RUNTIME[0] == ".ai-team" && "src"[0] == 's' && "adapters"[0] == 'a';
    assert p[0] == "src" || p[0] == "adapters";
    assert p[0] == "src" ==> |p| == 5 && p[4] == "core.py";
    assert p[0] == "adapters" ==> |p| == 3;
    assert "core.py"[0] == 'c' && "hook.py"[0] == 'h';
    assert (CORE_MOVE.src + CURSOR + ["hook.py"])[4] == "hook.py" && (CORE_MOVE.src + CLAUDE_CODE + ["hook.py"])[4] == "hook.py";
    assert |CORE_MOVE.src + CURSOR + ["hook.py"]| == 5 && |CORE_MOVE.src + CLAUDE_CODE + ["hook.py"]| == 5;
  }

  lemma Nested(outer: Path, inner: Path, p: Path)
    ensures Under(outer + inner, p) ==> Under(outer, p)
  {
    if Under(outer + inner, p) { assert p[..|outer|] == (outer + inner)[..|outer|] == outer; }
  }

  lemma LegacyPending()
    ensures Pending(LEGACY, CORE_MOVE) && Pending(LEGACY, CURSOR_MOVE) && Pending(LEGACY, CLAUDE_MOVE)
    ensures Exists(LEGACY, CORE_MOVE.src + CURSOR) && Exists(LEGACY, CORE_MOVE.src + CLAUDE_CODE)
    ensures CURSOR + ["hook.py"] in LEGACY && CLAUDE_CODE + ["hook.py"] in LEGACY
  {
    forall p | p in LEGACY
      ensures !Under(RUNTIME, p) && !Under(CURSOR_MOVE.dst, p) && !Under(CLAUDE_MOVE.dst, p)
      ensures p != CORE_MOVE.src && p != CURSOR && p != CLAUDE_CODE
    {
      LegacyPaths(p);
      Nested(RUNTIME, CURSOR, p);
      Nested(RUNTIME, CLAUDE_CODE, p);
    }
    LegacyExists();
  }

  lemma LegacyExists()
    ensures Exists(LEGACY, CORE_MOVE.src) && Exists(LEGACY, CURSOR) && Exists(LEGACY, CLAUDE_CODE)
    ensures Exists(LEGACY, CORE_MOVE.src + CURSOR) && Exists(LEGACY, CORE_MOVE.src + CLAUDE_CODE)
    ensures CURSOR + ["hook.py"] in LEGACY && CLAUDE_CODE + ["hook.py"] in LEGACY
  {
    var p := ["src", "governed_ai", "adapters", "cursor", "core.py"];
    var q := ["src", "governed_ai", "adapters", "claude_code", "core.py"];
    assert p in LEGACY && Under(CORE_MOVE.src, p) && Under(CORE_MOVE.src + CURSOR, p);
    assert q in LEGACY && Under(CORE_MOVE.src + CLAUDE_CODE, q);
    assert CURSOR + ["hook.py"] == ["adapters", "cursor", "hook.py"];
    assert CLAUDE_CODE + ["hook.py"] == ["adapters", "claude_code", "hook.py"];
    assert Under(CURSOR, CURSOR + ["hook.py"]) && Under(CLAUDE_CODE, CLAUDE_CODE + ["hook.py"]);
  }

  lemma {:induction false} SourcesGo(t: Tree, moves: seq<Relocation>, m: Relocation, p: Path)
    requires m in moves && Under(m.src, p)
    ensures p !in RemoveSources(t, moves)
  {
    var n := |moves| - 1;
    if m != moves[n] { SourcesGo(t, moves[..n], m, p); }
  }

  /** There the update succeeds, and of both adapters' files nothing is left: not
      moved, as their places were taken by the core tree's, and removed. */
  lemma AdaptersLost()
    ensures var moved := ApplyMoves(LEGACY, PlanMoves(LEGACY, RELOCATIONS));
      var after := RemoveSources(moved, PlanMoves(LEGACY, RELOCATIONS));
      && CURSOR + ["hook.py"] in LEGACY && CLAUDE_CODE + ["hook.py"] in LEGACY
      && !HasFile(moved, RUNTIME + CURSOR + ["hook.py"], LEGACY[CURSOR + ["hook.py"]])
      && !HasFile(moved, RUNTIME + CLAUDE_CODE + ["hook.py"], LEGACY[CLAUDE_CODE + ["hook.py"]])
      && CURSOR + ["hook.py"] !in after && CLAUDE_CODE + ["hook.py"] !in after
  {
    hide LEGACY, ApplyMoves, PlanMoves, RemoveSources, Pending, RUNTIME, Exists;
    LegacyPending();
    forall p | p in LEGACY ensures p != CORE_MOVE.src + CURSOR + ["hook.py"] && p != CORE_MOVE.src + CLAUDE_CODE + ["hook.py"] {
      LegacyPaths(p);
    }
    CursorArrivesIff(LEGACY, ["hook.py"]);
    ClaudeArrivesIff(LEGACY, ["hook.py"]);
    var moves := PlanMoves(LEGACY, RELOCATIONS);
    assert CURSOR_MOVE in RELOCATIONS && CLAUDE_MOVE in RELOCATIONS;
    assert Under(CURSOR, CURSOR + ["hook.py"]) && Under(CLAUDE_CODE, CLAUDE_CODE + ["hook.py"]);
    SourcesGo(ApplyMoves(LEGACY, moves), moves, CURSOR_MOVE, CURSOR + ["hook.py"]);
    SourcesGo(ApplyMoves(LEGACY, moves), moves, CLAUDE_MOVE, CLAUDE_CODE + ["hook.py"]);
  }
}
