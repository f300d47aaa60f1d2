/** Paths of the framework's source and of an installed project, and the mapping
    between them. */
module Paths {
  import opened Text

  function Slashes(p: string): (r: string)
    ensures |r| == |p| && '\\' !in r
    ensures '\\' !in p ==> r == p
  {
    if p == "" then ""
    else
      assert p == [p[0]] + p[1..];
      [if p[0] == '\\' then '/' else p[0]] + Slashes(p[1..])
  }

  /** Forward slashes, and one leading "./" dropped: only one. */
  function Normalize(p: string): (r: string)
    ensures '\\' !in r
  {
    var s := Slashes(p);
    if "./" <= s then s[2..] else s
  }

  predicate Stable(p: string) { Normalize(p) == p }

  /** On what normalizing yields, doing it again drops two characters or nothing. */
  lemma NormalizeAgain(p: string)
    requires '\\' !in p
    ensures !Stable(p) ==> |Normalize(p)| == |p| - 2 && p == "./" + Normalize(p)
    ensures Stable(p) <==> !("./" <= p)
  {
  }

  /** Normalizing twice is normalizing once exactly when the path does not begin
      with two such prefixes. */
  lemma NormalizeTwiceIff(p: string)
    ensures Normalize(Normalize(p)) == Normalize(p) <==> !("././" <= Slashes(p))
  {
    hide Slashes;
    var s := Slashes(p);
    NormalizeAgain(Normalize(p));
    assert "././"[..2] == "./" && "././"[2..] == "./";
    assert "././" <= s <==> "./" <= s && "./" <= s[2..];
  }

  /** A path for which it is not. */
  lemma NormalizeNotIdempotent()
    ensures Normalize("././a") == "./a" && Normalize(Normalize("././a")) == "a"
  {
    assert Slashes("././a") == "././a" && Slashes("./a") == "./a" by { NoBackslashes(); }
  }

  lemma NoBackslashes()
    ensures '\\' !in "././a" && '\\' !in "./a"
  {
  }

  // -------------------------------------------------------------- relocation

  /** `p` is the directory `dir` or below it. */
  predicate Below(dir: string, p: string) { p == dir || dir + "/" <= p }

  predicate IsSlash(c: char) { c == '/' }

  /** `p`, which is below `from`, moved below `to`. */
  function Rebased(p: string, from: string, to: string): string
    requires Below(from, p)
  {
    var suffix := StripLeft(p[|from|..], IsSlash);
    if suffix != "" then to + "/" + suffix else to
  }

  const CORE := "src/governed_ai"
  const CURSOR := "adapters/cursor"
  const CLAUDE := "adapters/claude_code"
  const RUNTIME := ".ai-team/runtime/governed_ai"
  const REQUIREMENTS := "requirements.txt"
  const INSTALLED_REQUIREMENTS := ".ai-team/requirements.txt"

  function ToTarget(source: string): string {
    var rel := Normalize(source);
    if Below(CORE, rel) then Rebased(rel, CORE, RUNTIME)
    else if Below(CURSOR, rel) then Rebased(rel, CURSOR, RUNTIME + "/" + CURSOR)
    else if Below(CLAUDE, rel) then Rebased(rel, CLAUDE, RUNTIME + "/" + CLAUDE)
    else if rel == REQUIREMENTS then INSTALLED_REQUIREMENTS
    else rel
  }

  /** The longest destination is tried first. */
  function ToSource(target: string): Option<string> {
    var rel := Normalize(target);
    if Below(RUNTIME + "/" + CLAUDE, rel) then Some(Rebased(rel, RUNTIME + "/" + CLAUDE, CLAUDE))
    else if Below(RUNTIME + "/" + CURSOR, rel) then Some(Rebased(rel, RUNTIME + "/" + CURSOR, CURSOR))
    else if Below(RUNTIME, rel) then Some(Rebased(rel, RUNTIME, CORE))
    else if rel == INSTALLED_REQUIREMENTS then Some(REQUIREMENTS)
    else None
  }

  /** Normalized, without empty parts. */
  predicate Canonical(p: string) {
    Stable(p) && (p != "" ==> p[|p| - 1] != '/') && forall i :: 0 <= i < |p| - 1 ==> !(p[i] == '/' && p[i + 1] == '/')
  }

  /** What a canonical path has behind a directory it is below. */
  predicate CleanTail(tail: string) {
    tail == "" || (|tail| > 1 && tail[0] == '/' && tail[1] != '/')
  }

  lemma CanonicalTail(p: string, dir: string)
    requires Canonical(p) && Below(dir, p)
    ensures p == dir + p[|dir|..] && CleanTail(p[|dir|..])
  {
    hide Stable;
    if p != dir {
      assert (dir + "/")[|dir|] == '/';
      assert p[|dir|] == '/' && |p| > |dir| + 1;
    }
  }

  lemma StripOneSlash(tail: string)
    requires |tail| > 1 && tail[0] == '/' && tail[1] != '/'
    ensures StripLeft(tail, IsSlash) == tail[1..]
  {
    assert StripLeft(tail[1..], IsSlash) == tail[1..];
  }

  /** Moving such a path just exchanges the directory. */
  lemma RebasedIs(tail: string, from: string, to: string)
    requires CleanTail(tail)
    ensures Below(from, from + tail) && Rebased(from + tail, from, to) == to + tail
  {
    hide StripLeft;
    BelowOf(from, tail);
    assert (from + tail)[|from|..] == tail;
    if tail != "" {
      StripOneSlash(tail);
      assert tail == "/" + tail[1..];
      Assoc(to, "/", tail[1..]);
    } else {
      StripNothing();
    }
  }

  lemma StripNothing()
    ensures StripLeft("", IsSlash) == ""
  {
  }

  /** Being below a directory does not depend on what comes before both. */
  lemma BelowShifts(a: string, x: string, r: string)
    ensures Below(a + x, a + r) <==> Below(x, r)
  {
    assert a + x == a + r <==> x == r by {
      assert (a + x)[|a|..] == x && (a + r)[|a|..] == r;
    }
    Assoc(a, x, "/");
    var y := x + "/";
    assert a + y <= a + r <==> y <= r by {
      if a + y <= a + r {
        assert (a + r)[..|a + y|] == a + y;
        assert r[..|y|] == (a + r)[|a|..|a| + |y|] == (a + y)[|a|..] == y;
      }
      if y <= r {
        assert (a + r)[..|a + y|] == a + r[..|y|];
      }
    }
  }

  lemma BelowOf(dir: string, rest: string)
    requires rest == "" || rest[0] == '/'
    ensures Below(dir, dir + rest)
  {
    if rest != "" {
      assert (dir + rest)[..|dir| + 1] == dir + "/";
    }
  }

  /** No path lies below two directories that differ at some character. */
  lemma NotBelowBoth(a: string, b: string, k: nat, p: string)
    requires k < |a| && k < |b| && a[k] != b[k]
    ensures !(Below(a, p) && Below(b, p))
  {
    assert Below(a, p) ==> |p| >= |a| && p[k] == a[k];
    assert Below(b, p) ==> |p| >= |b| && p[k] == b[k];
  }

  lemma Apart(p: string)
    ensures !(Below(CORE, p) && Below(CURSOR, p)) && !(Below(CORE, p) && Below(CLAUDE, p)) && !(Below(CURSOR, p) && Below(CLAUDE, p))
    ensures !(Below(RUNTIME + "/" + CURSOR, p) && Below(RUNTIME + "/" + CLAUDE, p))
    ensures Below(RUNTIME, p) ==> p != INSTALLED_REQUIREMENTS
    ensures Below(CORE, p) || Below(CURSOR, p) || Below(CLAUDE, p) ==> p != REQUIREMENTS
  {
    assert CORE[0] == 's' && CURSOR[0] == 'a' && CLAUDE[0] == 'a' && REQUIREMENTS[0] == 'r';
    assert CURSOR[10] == 'u' && CLAUDE[10] == 'l';
    NotBelowBoth(CORE, CURSOR, 0, p);
    NotBelowBoth(CORE, CLAUDE, 0, p);
    NotBelowBoth(CURSOR, CLAUDE, 10, p);
    var n := |RUNTIME| + 11;
    assert (RUNTIME + "/" + CURSOR)[n] == CURSOR[10] && (RUNTIME + "/" + CLAUDE)[n] == CLAUDE[10];
    NotBelowBoth(RUNTIME + "/" + CURSOR, RUNTIME + "/" + CLAUDE, n, p);
    assert RUNTIME[10] == 'u' && INSTALLED_REQUIREMENTS[10] == 'e';
    BelowSelf(INSTALLED_REQUIREMENTS, REQUIREMENTS);
    NotBelowBoth(RUNTIME, INSTALLED_REQUIREMENTS, 10, p);
    NotBelowBoth(CORE, REQUIREMENTS, 0, p);
    NotBelowBoth(CURSOR, REQUIREMENTS, 0, p);
    NotBelowBoth(CLAUDE, REQUIREMENTS, 0, p);
  }

  lemma BelowSelf(a: string, b: string)
    ensures Below(a, a) && Below(b, b)
  {
  }

  /** A directory name followed by a clean tail is normalized. */
  lemma StableStart(dir: string, tail: string, whole: string)
    requires '\\' !in dir && '\\' !in tail && |dir| > 1 && !(dir[0] == '.' && dir[1] == '/')
    requires whole == dir + tail
    ensures Normalize(whole) == whole
  {
    NormalizeAgain(whole);
    assert whole[0] == dir[0] && whole[1] == dir[1];
    assert "./"[0] == '.' && "./"[1] == '/';
  }

  lemma Starts()
    ensures CORE[0] == 's' && CURSOR[0] == 'a' && CLAUDE[0] == 'a' && REQUIREMENTS[0] == 'r'
    ensures RUNTIME[0] == '.' && RUNTIME[1] == 'a' && INSTALLED_REQUIREMENTS[0] == '.' && INSTALLED_REQUIREMENTS[1] == 'a'
    ensures '\\' !in CORE && '\\' !in CURSOR && '\\' !in CLAUDE && '\\' !in RUNTIME && '\\' !in REQUIREMENTS && '\\' !in INSTALLED_REQUIREMENTS
    ensures |CORE| > 1 && |CURSOR| > 1 && |CLAUDE| > 1 && |RUNTIME| > 1 && |REQUIREMENTS| > 1 && |INSTALLED_REQUIREMENTS| > 1
  {
  }

  lemma RequirementsStable()
    ensures Normalize(REQUIREMENTS) == REQUIREMENTS && Normalize(INSTALLED_REQUIREMENTS) == INSTALLED_REQUIREMENTS
  {
    Starts();
    hide Normalize, REQUIREMENTS, INSTALLED_REQUIREMENTS;
    StableStart(REQUIREMENTS, "", REQUIREMENTS + "");
    StableStart(INSTALLED_REQUIREMENTS, "", INSTALLED_REQUIREMENTS + "");
    assert REQUIREMENTS + "" == REQUIREMENTS && INSTALLED_REQUIREMENTS + "" == INSTALLED_REQUIREMENTS;
  }

  /** Where a path below each source directory goes. */
  lemma ToTargetCases(tail: string)
    requires CleanTail(tail) && '\\' !in tail
    ensures ToTarget(CORE + tail) == RUNTIME + tail
    ensures ToTarget(CURSOR + tail) == RUNTIME + "/" + CURSOR + tail
    ensures ToTarget(CLAUDE + tail) == RUNTIME + "/" + CLAUDE + tail
  {
    Starts();
    hide Normalize, Below, Rebased, CORE, CURSOR, CLAUDE, RUNTIME;
    StableStart(CORE, tail, CORE + tail);
    StableStart(CURSOR, tail, CURSOR + tail);
    StableStart(CLAUDE, tail, CLAUDE + tail);
    RebasedIs(tail, CORE, RUNTIME);
    RebasedIs(tail, CURSOR, RUNTIME + "/" + CURSOR);
    RebasedIs(tail, CLAUDE, RUNTIME + "/" + CLAUDE);
    Apart(CURSOR + tail);
    Apart(CLAUDE + tail);
  }

  /** Every other path is only normalized, and not a target of any. */
  lemma ElsewhereStays(p: string)
    ensures var rel := Normalize(p);
      && (!Below(CORE, rel) && !Below(CURSOR, rel) && !Below(CLAUDE, rel) && rel != REQUIREMENTS ==> ToTarget(p) == rel)
      && (ToSource(p).Some? <==> Below(RUNTIME, rel) || rel == INSTALLED_REQUIREMENTS)
  {
    hide Normalize, Rebased;
    var rel := Normalize(p);
    BelowParent(RUNTIME, CLAUDE, rel);
    BelowParent(RUNTIME, CURSOR, rel);
  }

  /** Reversing a relocated target and mapping the result gives the target back. */
  lemma TargetRoundTrip(t: string)
    requires Canonical(t) && ToSource(t).Some?
    ensures ToTarget(ToSource(t).value) == t
  {
    Starts();
    hide Normalize, Below, Rebased, CORE, CURSOR, CLAUDE, RUNTIME, ToTarget, CleanTail;
    assert Normalize(t) == t;
    if Below(RUNTIME + "/" + CLAUDE, t) {
      RelocatedBack(t, RUNTIME + "/" + CLAUDE, CLAUDE);
    } else if Below(RUNTIME + "/" + CURSOR, t) {
      RelocatedBack(t, RUNTIME + "/" + CURSOR, CURSOR);
    } else if Below(RUNTIME, t) {
      RelocatedBack(t, RUNTIME, CORE);
    } else {
      RequirementsThere();
    }
  }

  lemma RelocatedBack(t: string, dir: string, source: string)
    requires Canonical(t) && Below(dir, t)
    requires (dir == RUNTIME + "/" + CLAUDE && source == CLAUDE) || (dir == RUNTIME + "/" + CURSOR && source == CURSOR) || (dir == RUNTIME && source == CORE)
    ensures ToTarget(Rebased(t, dir, source)) == t
  {
    hide Below, Rebased, CORE, CURSOR, CLAUDE, RUNTIME, ToTarget, CleanTail;
    CanonicalTail(t, dir);
    var tail := t[|dir|..];
    RebasedIs(tail, dir, source);
    ToTargetCases(tail);
  }

  lemma RequirementsThere()
    ensures ToTarget(REQUIREMENTS) == INSTALLED_REQUIREMENTS
    ensures ToSource(INSTALLED_REQUIREMENTS) == Some(REQUIREMENTS)
  {
    RequirementsStable();
    hide Normalize;
    Apart(REQUIREMENTS);
    Apart(INSTALLED_REQUIREMENTS);
    BelowParent(RUNTIME, CLAUDE, INSTALLED_REQUIREMENTS);
    BelowParent(RUNTIME, CURSOR, INSTALLED_REQUIREMENTS);
    hide Below;
  }

  lemma BelowParent(dir: string, sub: string, p: string)
    ensures Below(dir + "/" + sub, p) ==> Below(dir, p)
  {
    if Below(dir + "/" + sub, p) {
      assert p[..|dir| + 1] == (dir + "/" + sub)[..|dir| + 1] == dir + "/";
    }
  }

  predicate Relocated(p: string) { Below(CORE, p) || Below(CURSOR, p) || Below(CLAUDE, p) || p == REQUIREMENTS }

  /** Mapping a relocated source and reversing gives the source back exactly when
      it does not lie where the adapters' own directories are moved to. */
  lemma SourceRoundTripIff(p: string)
    requires Canonical(p) && Relocated(p)
    ensures ToSource(ToTarget(p)) == Some(p) <==> !Below(CORE + "/" + CURSOR, p) && !Below(CORE + "/" + CLAUDE, p)
  {
    hide Normalize, Below, Rebased, CORE, CURSOR, CLAUDE, RUNTIME, ToTarget, ToSource, CleanTail, REQUIREMENTS;
    Apart(p);
    BelowParent(CORE, CURSOR, p);
    BelowParent(CORE, CLAUDE, p);
    if Below(CORE, p) {
      CanonicalTail(p, CORE);
      ToTargetCases(p[|CORE|..]);
      CoreBack(p[|CORE|..]);
    } else if Below(CURSOR, p) {
      CanonicalTail(p, CURSOR);
      ToTargetCases(p[|CURSOR|..]);
      AdapterBack(CURSOR, p[|CURSOR|..]);
    } else if Below(CLAUDE, p) {
      CanonicalTail(p, CLAUDE);
      ToTargetCases(p[|CLAUDE|..]);
      AdapterBack(CLAUDE, p[|CLAUDE|..]);
    } else {
      RequirementsThere();
    }
  }

  lemma AdapterBack(dir: string, tail: string)
    requires (dir == CURSOR || dir == CLAUDE) && CleanTail(tail) && '\\' !in tail
    ensures ToSource(RUNTIME + "/" + dir + tail) == Some(dir + tail)
  {
    Starts();
    hide Normalize, Below, Rebased, CORE, CURSOR, CLAUDE, RUNTIME, CleanTail;
    var t := RUNTIME + "/" + dir + tail;
    Assoc(RUNTIME, "/" + dir, tail);
    assert t == RUNTIME + ("/" + dir + tail) && t == RUNTIME + "/" + dir + tail;
    assert '\\' !in "/" + dir + tail;
    StableStart(RUNTIME, "/" + dir + tail, t);
    RebasedIs(tail, RUNTIME + "/" + dir, dir);
    Apart(t);
  }

  lemma CoreBack(tail: string)
    requires CleanTail(tail) && '\\' !in tail
    ensures ToSource(RUNTIME + tail) == Some(CORE + tail) <==>
      !Below(CORE + "/" + CURSOR, CORE + tail) && !Below(CORE + "/" + CLAUDE, CORE + tail)
  {
    Starts();
    hide Normalize, Below, Rebased, CORE, CURSOR, CLAUDE, RUNTIME, CleanTail;
    var t := RUNTIME + tail;
    StableStart(RUNTIME, tail, t);
    RebasedIs(tail, RUNTIME, CORE);
    SameBelow(CURSOR, tail);
    SameBelow(CLAUDE, tail);
    if Below(RUNTIME + "/" + CURSOR, t) {
      RebasedStart(t, RUNTIME + "/" + CURSOR, CURSOR);
    }
    if Below(RUNTIME + "/" + CLAUDE, t) {
      RebasedStart(t, RUNTIME + "/" + CLAUDE, CLAUDE);
    }
    assert (CORE + tail)[0] == 's';
  }

  lemma SameBelow(sub: string, tail: string)
    ensures Below(RUNTIME + "/" + sub, RUNTIME + tail) <==> Below(CORE + "/" + sub, CORE + tail)
  {
    hide Below, RUNTIME, CORE;
    BelowShifts(RUNTIME, "/" + sub, tail);
    BelowShifts(CORE, "/" + sub, tail);
    Assoc(RUNTIME, "/", sub);
    Assoc(CORE, "/", sub);
  }

  lemma RebasedStart(p: string, from: string, to: string)
    requires Below(from, p) && to != ""
    ensures Rebased(p, from, to) != "" && Rebased(p, from, to)[0] == to[0]
  {
  }
}
