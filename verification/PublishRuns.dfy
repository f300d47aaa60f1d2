/** What publications promise over any number of them: bundles never change,
    every one validates, and the active file names one of them. */
module PublishRuns {
  import opened Text
  import opened BundleHash
  import opened Publish
  import opened Sorting

  // --------------------------------------------------------- plain file names

  lemma {:induction false} PlainParts(name: string)
    requires '/' !in name
    ensures Parts(name) == [name]
  {
    if name != "" {
      PlainParts(name[1..]);
      assert name == [name[0]] + name[1..];
    }
  }

  lemma {:induction false} PartsOf(name: string, rel: string)
    requires '/' !in name
    ensures Parts(name + "/" + rel) == [name] + Parts(rel)
  {
    var s := name + "/" + rel;
    if name == "" {
      assert s[1..] == rel;
    } else {
      PartsOf(name[1..], rel);
      assert s[1..] == name[1..] + "/" + rel;
      assert name == [name[0]] + name[1..];
    }
  }

  lemma PlainStays(name: string)
    requires '/' !in name && name != "" && name != "." && name != ".."
    ensures Stays(name) && Inner(Parts(name)) == Some([name])
    ensures forall dir :: Resolve(dir, name) == dir + [name]
  {
    PlainParts(name);
    assert [name][..0] == [] && name[0] in name;
    assert Inner([name]) == Some([] + [name]);
    assert [] + [name] == [name];
    hide Inner;
    forall dir ensures Resolve(dir, name) == dir + [name] {
      WalkStays(dir, Parts(name));
    }
  }

  // -------------------------------------------------- when a new bundle holds

  /** A published bundle validates in its own directory exactly when none of its
      references climbs out of it. */
  lemma NewBundleValidatesIff(w: World, was: Files, root: Path, source: Path, b: Bundle, staged: Files, now: Files)
    requires VersionShaped(b.version) && StagesAs(w, was, root, source, b, staged)
    requires SameTree(staged, StagingDir(root, b.version), now, BundleDir(root, b.version))
    ensures var held := Accepts(w, staged, StagingDir(root, b.version)).value;
      && (Accepts(w, now, BundleDir(root, b.version)).Some? <==> held.manifest.AllStay())
      && (held.manifest.AllStay() ==> Accepts(w, now, BundleDir(root, b.version)) == Some(held))
  {
    hide Validate, Resolve, ContentHash, StagedFrom, Admit, Under;
    var s, v := StagingDir(root, b.version), BundleDir(root, b.version);
    AcceptedIsAdmitted(w, staged, s);
    var m := Accepts(w, staged, s).value.manifest;
    if m.AllStay() {
      ValidateMoved(w, staged, s, now, v, m);
    }
    if Accepts(w, now, v).Some? {
      AcceptedIsAdmitted(w, now, v);
      assert staged[s + [MANIFEST]] == now[v + [MANIFEST]];
      AcceptedStaysInside(w, staged, s);
      AcceptedStaysInside(w, now, v);
      SiblingsDiffer(b.version);
      forall rel | rel in m.Refs() ensures Stays(rel) {
        StaysIffInsideSiblings(root + ["bundles"], ".staging-" + b.version, b.version, rel);
      }
    }
  }

  lemma SiblingsDiffer(version: string)
    requires VersionShaped(version)
    ensures ".staging-" + version != version
  {
    assert (".staging-" + version)[0] == '.';
  }

  // ------------------------------------------------------- staged manifests

  lemma {:induction false} ManifestSurvives(fs: Files, source: Path, s: Path, rels: seq<string>, staged: Files)
    requires rels != [] && rels[0] == MANIFEST && forall rel :: rel in rels ==> Stays(rel)
    requires Copied(fs, source, s, rels) == Some(staged) && !Under(s, source + [MANIFEST])
    ensures source + [MANIFEST] in fs && source + [MANIFEST] in staged && s + [MANIFEST] in staged
    ensures staged[source + [MANIFEST]] == fs[source + [MANIFEST]] == staged[s + [MANIFEST]]
  {
    var n := |rels| - 1;
    hide Parts, Inner;
    PlainStays(MANIFEST);
    assert Resolve(source, MANIFEST) == source + [MANIFEST] && Resolve(s, MANIFEST) == s + [MANIFEST];
    if n == 0 {
      assert rels[..0] == [];
      assert s + [MANIFEST] != source + [MANIFEST] by { assert Under(s, s + [MANIFEST]); }
    } else {
      var before := Copied(fs, source, s, rels[..n]).value;
      assert rels[n] in rels && Stays(rels[n]);
      ManifestSurvives(fs, source, s, rels[..n], before);
      WalkStays(source, Parts(rels[n]));
      WalkStays(s, Parts(rels[n]));
      ManifestStep(before, source, s, rels[n], staged);
    }
  }

  lemma ManifestStep(before: Files, source: Path, s: Path, rel: string, staged: Files)
    requires !Under(s, source + [MANIFEST]) && Stays(rel)
    requires Resolve(source, rel) == source + Inner(Parts(rel)).value && Resolve(s, rel) == s + Inner(Parts(rel)).value
    requires source + [MANIFEST] in before && s + [MANIFEST] in before
    requires before[source + [MANIFEST]] == before[s + [MANIFEST]]
    requires Resolve(source, rel) in before && staged == before[Resolve(s, rel) := before[Resolve(source, rel)]]
    ensures source + [MANIFEST] in staged && s + [MANIFEST] in staged
    ensures staged[source + [MANIFEST]] == before[source + [MANIFEST]] == staged[s + [MANIFEST]]
  {
    hide Resolve;
    var q := Inner(Parts(rel)).value;
    assert Under(s, s + q);
    if q != [MANIFEST] {
      assert (s + q)[|s|..] == q && (s + [MANIFEST])[|s|..] == [MANIFEST];
    }
  }

  /** The staged bundle is the accepted one. */
  lemma StagedIsSource(w: World, was: Files, root: Path, source: Path, b: Bundle, staged: Files)
    requires Accepts(w, was, source) == Some(b) && b.manifest.AllStay()
    requires StagesAs(w, was, root, source, b, staged)
    ensures Accepts(w, staged, StagingDir(root, b.version)) == Some(b)
  {
    hide Validate, Resolve, ContentHash, Admit, Under, Copied, Stays, Parts;
    var s := StagingDir(root, b.version);
    var fs, rels := Without(was, s), PublishedPaths(b.manifest);
    AcceptedIsAdmitted(w, was, source);
    AcceptedIsAdmitted(w, staged, s);
    PlainStays(MANIFEST);
    FirstIsManifest(fs, source, s, rels, staged);
    ManifestSurvives(fs, source, s, rels, staged);
  }

  lemma {:induction false} FirstIsManifest(fs: Files, source: Path, s: Path, rels: seq<string>, staged: Files)
    requires rels != [] && rels[0] == MANIFEST && Copied(fs, source, s, rels) == Some(staged)
    requires forall q :: Under(s, q) ==> q !in fs
    ensures !Under(s, source + [MANIFEST])
  {
    var n := |rels| - 1;
    hide Resolve;
    if n == 0 {
      PlainStays(MANIFEST);
      assert rels[..0] == [];
      assert Resolve(source, MANIFEST) == source + [MANIFEST];
    } else {
      FirstIsManifest(fs, source, s, rels[..n], Copied(fs, source, s, rels[..n]).value);
    }
  }

  // ---------------------------------------------------------- completeness

  ghost predicate LeadsTo(rels: seq<string>, q: Path) {
    exists rel :: rel in rels && Inner(Parts(rel)) == Some(q)
  }

  /** Staging holds what the references lead to, and nothing else. */
  ghost predicate HoldsExactly(fs: Files, source: Path, staged: Files, s: Path, rels: seq<string>) {
    forall q: Path :: (s + q in staged <==> LeadsTo(rels, q)) && (LeadsTo(rels, q) ==> source + q in fs && staged[s + q] == fs[source + q])
  }

  lemma {:induction false} CopiesExactly(fs: Files, source: Path, s: Path, rels: seq<string>)
    requires !Under(s, source) && !Under(source, s) && !Present(fs, s)
    requires forall rel :: rel in rels ==> Stays(rel) && Look(fs, source, rel).Some?
    ensures Copied(fs, source, s, rels).Some?
    ensures HoldsExactly(fs, source, Copied(fs, source, s, rels).value, s, rels)
    ensures forall q :: Under(s, q) || SameAt(fs, Copied(fs, source, s, rels).value, q)
  {
    if rels == [] {
      assert forall q: Path :: Under(s, s + q);
    } else {
      var n := |rels| - 1;
      CopiesExactly(fs, source, s, rels[..n]);
      var before := Copied(fs, source, s, rels[..n]).value;
      assert rels[n] in rels && Stays(rels[n]);
      var q := Inner(Parts(rels[n])).value;
      WalkStays(source, Parts(rels[n]));
      WalkStays(s, Parts(rels[n]));
      Disjoint(source, s, q);
      assert Look(fs, source, rels[n]).Some?;
      assert SameAt(fs, before, source + q);
      assert Under(source, source + q) && Under(s, s + q);
      var now := before[s + q := before[source + q]];
      assert Copied(fs, source, s, rels) == Some(now);
      HoldsOneMore(fs, source, before, s, rels[..n], rels, now);
      forall p ensures Under(s, p) || SameAt(fs, now, p) {
        assert Under(s, p) || SameAt(fs, before, p);
      }
    }
  }

  lemma Disjoint(source: Path, s: Path, q: Path)
    requires !Under(s, source) && !Under(source, s)
    ensures !Under(s, source + q)
  {
    var p := source + q;
    assert |s| <= |source| ==> p[..|s|] == source[..|s|];
    assert |source| < |s| <= |p| ==> p[..|s|][..|source|] == source;
  }

  lemma HoldsOneMore(fs: Files, source: Path, before: Files, s: Path, init: seq<string>, rels: seq<string>, now: Files)
    requires rels != [] && init == rels[..|rels| - 1] && Inner(Parts(rels[|rels| - 1])).Some?
    requires HoldsExactly(fs, source, before, s, init)
    requires var q := Inner(Parts(rels[|rels| - 1])).value;
      source + q in fs && now == before[s + q := fs[source + q]]
    ensures HoldsExactly(fs, source, now, s, rels)
  {
    hide Inner, Parts;
    var rel := rels[|rels| - 1];
    var q := Inner(Parts(rel)).value;
    forall p: Path
      ensures s + p in now <==> LeadsTo(rels, p)
      ensures LeadsTo(rels, p) ==> source + p in fs && now[s + p] == fs[source + p]
    {
      LeadsToMore(init, rels, p);
      assert s + p == s + q <==> p == q by {
        assert (s + p)[|s|..] == p && (s + q)[|s|..] == q;
      }
    }
  }

  lemma LeadsToMore(init: seq<string>, rels: seq<string>, p: Path)
    requires rels != [] && init == rels[..|rels| - 1]
    ensures LeadsTo(rels, p) <==> LeadsTo(init, p) || Inner(Parts(rels[|rels| - 1])) == Some(p)
  {
    hide Inner, Parts;
    var rel := rels[|rels| - 1];
    assert rels == init + [rel] && rel in rels;
    if LeadsTo(init, p) {
      var r :| r in init && Inner(Parts(r)) == Some(p);
      assert r in rels;
    }
  }

  /** An accepted bundle none of whose references climbs, outside the staging
      directory, can always be staged; staging then holds just the files the
      manifest lists, with their contents. */
  lemma AcceptedCanBeStaged(w: World, was: Files, root: Path, source: Path, b: Bundle)
    requires Accepts(w, was, source) == Some(b) && b.manifest.AllStay()
    requires !Under(StagingDir(root, b.version), source) && !Under(source, StagingDir(root, b.version))
    requires !Present(was, BundleDir(root, b.version))
    ensures Stageable(w, was, root, source, b)
    ensures HoldsExactly(was, source, StagedFrom(was, root, source, b).value, StagingDir(root, b.version), PublishedPaths(b.manifest))
  {
    hide Validate, ContentHash, Admit, Copied, Parts;
    var s := StagingDir(root, b.version);
    var fs, rels := Without(was, s), PublishedPaths(b.manifest);
    AcceptedIsAdmitted(w, was, source);
    PlainStays(MANIFEST);
    NothingToRemove(was, s);
    AllReadable(w, was, fs, source, s, b);
    hide Look, Stays;
    CopiesExactly(fs, source, s, rels);
    var staged := Copied(fs, source, s, rels).value;
    ExactInWas(was, fs, source, staged, s, rels);
    AcceptedStagedSame(w, was, source, staged, s, b);
    NothingAt(root, b.version, fs, staged);
  }

  lemma AllReadable(w: World, was: Files, fs: Files, source: Path, s: Path, b: Bundle)
    requires Accepts(w, was, source) == Some(b) && b.manifest.AllStay() && fs == Without(was, s)
    requires !Under(s, source) && !Under(source, s)
    ensures forall rel :: rel in PublishedPaths(b.manifest) ==> Stays(rel) && Look(fs, source, rel).Some?
  {
    hide Validate, ContentHash, Admit, Parts;
    AcceptedIsAdmitted(w, was, source);
    PlainStays(MANIFEST);
    AcceptedIsReadable(w, was, source);
    forall rel | rel in PublishedPaths(b.manifest) ensures Stays(rel) && Look(fs, source, rel).Some? {
      WalkStays(source, Parts(rel));
      Disjoint(source, s, Inner(Parts(rel)).value);
      assert rel == MANIFEST || rel in b.manifest.Refs();
      assert Resolve(source, MANIFEST) == source + [MANIFEST];
    }
  }

  lemma AcceptedIsReadable(w: World, fs: Files, dir: Path)
    requires Accepts(w, fs, dir).Some?
    ensures forall rel :: rel in Accepts(w, fs, dir).value.manifest.Refs() ==> Look(fs, dir, rel).Some?
  {
    hide Resolve, Validate, Gather;
    AcceptedIsAdmitted(w, fs, dir);
    var m := Accepts(w, fs, dir).value.manifest;
    SortedSetSorts(m.Refs());
    forall rel | rel in m.Refs() ensures Look(fs, dir, rel).Some? {
      assert rel in SortedSet(m.Refs());
      var i :| 0 <= i < |SortedSet(m.Refs())| && SortedSet(m.Refs())[i] == rel;
      GatherStops(fs, dir, SortedSet(m.Refs()), i + 1);
      GatherAt(fs, dir, SortedSet(m.Refs()), i);
    }
  }

  lemma ExactInWas(was: Files, fs: Files, source: Path, staged: Files, s: Path, rels: seq<string>)
    requires fs == Without(was, s) && HoldsExactly(fs, source, staged, s, rels)
    ensures HoldsExactly(was, source, staged, s, rels)
  {
    hide LeadsTo;
  }

  lemma AcceptedStagedSame(w: World, was: Files, source: Path, staged: Files, s: Path, b: Bundle)
    requires Accepts(w, was, source) == Some(b) && b.manifest.AllStay()
    requires HoldsExactly(was, source, staged, s, PublishedPaths(b.manifest))
    ensures Accepts(w, staged, s) == Some(b)
  {
    hide Validate, ContentHash, Admit, Parts;
    var m := b.manifest;
    AcceptedIsAdmitted(w, was, source);
    PlainStays(MANIFEST);
    assert MANIFEST in PublishedPaths(m);
    assert LeadsTo(PublishedPaths(m), [MANIFEST]);
    forall rel | rel in m.Refs() ensures LooksSame(was, source, staged, s, rel) {
      assert Stays(rel) && rel in PublishedPaths(m);
      WalkStays(source, Parts(rel));
      WalkStays(s, Parts(rel));
      assert LeadsTo(PublishedPaths(m), Inner(Parts(rel)).value);
    }
    ValidateLocal(w, was, source, staged, s, m);
  }

  lemma NothingAt(root: Path, version: string, fs: Files, staged: Files)
    requires VersionShaped(version) && !Present(fs, BundleDir(root, version))
    requires forall q :: Under(StagingDir(root, version), q) || SameAt(fs, staged, q)
    ensures !Present(staged, BundleDir(root, version))
  {
    PlacesApart(root, version, version);
    forall q | q in staged ensures !Under(BundleDir(root, version), q) {
      assert Under(StagingDir(root, version), q) || SameAt(fs, staged, q);
    }
  }

  // ------------------------------------------------------------------- runs

  /** The store, and whether writing the active file last failed half way. */
  datatype Shop = Shop(fs: Files, torn: bool)

  ghost predicate Sound(w: World, root: Path, fs: Files, v: string) {
    var b := Accepts(w, fs, BundleDir(root, v));
    b.Some? && b.value.version == v && b.value.manifest.AllStay()
  }

  /** The active file holds this version with the hash its directory has now. */
  ghost predicate PointsTo(w: World, root: Path, fs: Files, v: string) {
    && VersionShaped(v) && Present(fs, BundleDir(root, v))
    && ContentHashAt(w, fs, BundleDir(root, v)).Some?
    && PointerAt(root) in fs
    && fs[PointerAt(root)] == w.pointer(v, ContentHashAt(w, fs, BundleDir(root, v)).value)
  }

  function ContentHashAt(w: World, fs: Files, dir: Path): Option<string> {
    var path := dir + [MANIFEST];
    if path !in fs || w.manifestOf(fs[path]).None? then None
    else
      var digest := ContentHash(w, fs, dir, w.manifestOf(fs[path]).value);
      if digest.Digest? then Some(digest.hash) else None
  }

  ghost predicate Inv(w: World, root: Path, x: Shop) {
    && (forall v :: VersionShaped(v) && Present(x.fs, BundleDir(root, v)) ==> Sound(w, root, x.fs, v))
    && (x.torn || PointerAt(root) !in x.fs || exists v :: PointsTo(w, root, x.fs, v))
  }

  /** Somebody edits files outside the store, or a bundle is published, up to
      any point at which that may fail. */
  datatype Event =
    | Edit
    | Publication(source: Path, bundle: Bundle, effect: Effect, staged: Files)

  ghost predicate Next(w: World, root: Path, x: Shop, e: Event, y: Shop) {
    match e
    case Edit => y.torn == x.torn && forall q :: Under(root, q) ==> SameAt(x.fs, y.fs, q)
    case Publication(source, b, effect, staged) =>
      && Accepts(w, x.fs, source) == Some(b)
      && Advance(w, root, source, b, x.fs, y.fs, effect, staged)
      && y.torn == (effect.Torn? || (x.torn && !effect.Pointed?))
  }

  ghost predicate IsRun(w: World, root: Path, states: seq<Shop>, events: seq<Event>) {
    && |states| == |events| + 1
    && !Present(states[0].fs, root) && !states[0].torn
    && forall i :: 0 <= i < |events| ==> Next(w, root, states[i], events[i], states[i + 1])
  }

  ghost predicate Lands(root: Path, source: Path, b: Bundle, q: Path) {
    Reached(source, StagingDir(root, b.version), PublishedPaths(b.manifest), q)
  }

  /** The publication copies nothing into the directory of version `v`. */
  ghost predicate Spares(root: Path, e: Event, v: string) {
    e.Publication? ==> forall q :: Lands(root, e.source, e.bundle, q) ==> !Under(BundleDir(root, v), q)
  }

  /** It copies into staging only, and if copying goes through, no reference
      climbs. Both can be told from the paths. */
  ghost predicate Harmless(root: Path, e: Event) {
    e.Publication? ==>
      var (source, b) := (e.source, e.bundle);
      && (forall q :: Lands(root, source, b, q) ==> Under(StagingDir(root, b.version), q))
      && (b.manifest.AllStay() || !SelfFree(source, StagingDir(root, b.version), PublishedPaths(b.manifest)))
  }

  /** No climbing reference, no harm. */
  lemma StayingIsHarmless(root: Path, e: Event)
    requires e.Publication? ==> e.bundle.manifest.AllStay()
    ensures Harmless(root, e)
  {
    hide Parts, Inner, Resolve, Stays;
    if e.Publication? {
      var b, s := e.bundle, StagingDir(root, e.bundle.version);
      PlainStays(MANIFEST);
      forall q | Lands(root, e.source, b, q) ensures Under(s, q) {
        var rels := PublishedPaths(b.manifest);
        var k :| 0 <= k < |rels| && Resolve(s, rels[k]) == q;
        assert rels[k] == MANIFEST || rels[k] in b.manifest.Refs();
        StaysUnder(s, rels[k]);
      }
    }
  }

  lemma StaysUnder(dir: Path, rel: string)
    requires Stays(rel)
    ensures Under(dir, Resolve(dir, rel))
  {
    hide Parts, Inner;
    WalkStays(dir, Parts(rel));
  }

  lemma HarmlessSpares(root: Path, e: Event, v: string)
    requires Harmless(root, e) && VersionShaped(v)
    ensures Spares(root, e, v)
  {
    if e.Publication? { PlacesApart(root, v, e.bundle.version); }
  }

  /** One step leaves every bundle that was there as it was. */
  lemma StepKeepsBundles(w: World, root: Path, x: Shop, e: Event, y: Shop, v: string, q: Path)
    requires Next(w, root, x, e, y) && VersionShaped(v) && Present(x.fs, BundleDir(root, v))
    requires Spares(root, e, v) && Under(BundleDir(root, v), q)
    ensures SameAt(x.fs, y.fs, q)
  {
    hide Accepts, Reached, StagesAs, SameTree, ExistingHash;
    if e.Edit? {
      assert Under(root, q);
    } else {
      var b := e.bundle;
      AcceptedVersion(w, x.fs, e.source);
      PlacesApart(root, v, b.version);
      assert q != PointerAt(root);
      if !Present(x.fs, BundleDir(root, b.version)) {
        assert !Lands(root, e.source, b, q);
        assert v != b.version;
        assert Mine(root, e.source, b, e.effect, q) || SameAt(x.fs, y.fs, q);
      }
    }
  }

  lemma AcceptedVersion(w: World, fs: Files, dir: Path)
    ensures Accepts(w, fs, dir).Some? ==> VersionShaped(Accepts(w, fs, dir).value.version)
  {
    hide Validate;
    if Accepts(w, fs, dir).Some? { AcceptedIsAdmitted(w, fs, dir); }
  }

  lemma SoundKept(w: World, root: Path, was: Files, now: Files, v: string)
    requires Sound(w, root, was, v)
    requires forall q :: Under(BundleDir(root, v), q) ==> SameAt(was, now, q)
    ensures Sound(w, root, now, v)
    ensures ContentHashAt(w, now, BundleDir(root, v)) == ContentHashAt(w, was, BundleDir(root, v))
    ensures ContentHashAt(w, was, BundleDir(root, v)) == Some(Accepts(w, was, BundleDir(root, v)).value.hash)
  {
    var d := BundleDir(root, v);
    forall q: Path ensures SameAt(was, now, d + q) {
      assert Under(d, d + q);
    }
    assert SameTree(was, d, now, d);
    hide Validate, ContentHash;
    AcceptedIsAdmitted(w, was, d);
    ValidateMoved(w, was, d, now, d, Accepts(w, was, d).value.manifest);
    AcceptedIsAdmitted(w, now, d);
  }

  /** A bundle that was not there before a step and is there after it is sound. */
  lemma NewBundleSound(w: World, root: Path, x: Shop, e: Event, y: Shop, v: string)
    requires Next(w, root, x, e, y) && Harmless(root, e) && VersionShaped(v)
    requires !Present(x.fs, BundleDir(root, v)) && Present(y.fs, BundleDir(root, v))
    ensures Sound(w, root, y.fs, v)
    ensures e.Publication? && !e.effect.Untouched? && e.bundle.version == v
    ensures Accepts(w, y.fs, BundleDir(root, v)) == Some(e.bundle)
  {
    hide Accepts, Reached, StagesAs, SameTree, ExistingHash, Manifest.AllStay, SelfFree;
    var q :| q in y.fs && Under(BundleDir(root, v), q);
    assert Under(root, q);
    assert !SameAt(x.fs, y.fs, q);
    assert e.Publication?;
    var b := e.bundle;
    AcceptedVersion(w, x.fs, e.source);
    PlacesApart(root, v, b.version);
    assert q != PointerAt(root);
    assert Lands(root, e.source, b, q) ==> Under(StagingDir(root, b.version), q);
    assert Mine(root, e.source, b, e.effect, q);
    PlacesApart(root, b.version, v);
    assert v == b.version;
    StagedIsSelfFree(w, x.fs, root, e.source, b, e.staged);
    StagedIsSource(w, x.fs, root, e.source, b, e.staged);
    NewBundleValidatesIff(w, x.fs, root, e.source, b, e.staged, y.fs);
  }

  lemma StagedIsSelfFree(w: World, was: Files, root: Path, source: Path, b: Bundle, staged: Files)
    requires StagesAs(w, was, root, source, b, staged)
    ensures SelfFree(source, StagingDir(root, b.version), PublishedPaths(b.manifest))
  {
    hide Accepts;
    var s := StagingDir(root, b.version);
    CopiedIsSelfFree(Without(was, s), source, s, PublishedPaths(b.manifest));
  }

  lemma {:induction false} CopiedIsSelfFree(fs: Files, source: Path, dest: Path, rels: seq<string>)
    requires Copied(fs, source, dest, rels).Some?
    ensures SelfFree(source, dest, rels)
  {
    hide Resolve, Under;
    if rels != [] {
      var n := |rels| - 1;
      CopiedIsSelfFree(fs, source, dest, rels[..n]);
      assert rels == rels[..n] + [rels[n]];
    }
  }

  /** The bundle a step confirms or puts in place is there, sound, with its hash. */
  lemma PlacedBundle(w: World, root: Path, x: Shop, e: Event, y: Shop)
    requires Inv(w, root, x) && Next(w, root, x, e, y) && Harmless(root, e) && e.Publication? && !e.effect.Untouched?
    ensures Present(y.fs, BundleDir(root, e.bundle.version)) && VersionShaped(e.bundle.version)
    ensures ContentHashAt(w, y.fs, BundleDir(root, e.bundle.version)) == Some(e.bundle.hash)
  {
    hide ContentHash, Reached, StagesAs, Validate;
    var b, d := e.bundle, BundleDir(root, e.bundle.version);
    AcceptedVersion(w, x.fs, e.source);
    if Present(x.fs, d) {
      HarmlessSpares(root, e, b.version);
      BundlesStay(w, root, x, e, y, b.version);
      assert Sound(w, root, x.fs, b.version);
      SoundKept(w, root, x.fs, y.fs, b.version);
      AcceptedIsAdmitted(w, x.fs, d);
    } else {
      ManifestArrives(w, root, x, e, y);
      NewBundleSound(w, root, x, e, y, b.version);
      AcceptedIsAdmitted(w, y.fs, d);
    }
  }

  lemma ManifestArrives(w: World, root: Path, x: Shop, e: Event, y: Shop)
    requires Next(w, root, x, e, y) && e.Publication? && !e.effect.Untouched?
    requires !Present(x.fs, BundleDir(root, e.bundle.version))
    ensures Present(y.fs, BundleDir(root, e.bundle.version))
  {
    hide ContentHash, Reached, Validate, StagedFrom;
    var s, d := StagingDir(root, e.bundle.version), BundleDir(root, e.bundle.version);
    AcceptedIsAdmitted(w, e.staged, s);
    assert s + [MANIFEST] in e.staged;
    assert d + [MANIFEST] in y.fs;
    assert Under(d, d + [MANIFEST]);
  }

  lemma BundlesStay(w: World, root: Path, x: Shop, e: Event, y: Shop, v: string)
    requires Next(w, root, x, e, y) && Spares(root, e, v) && VersionShaped(v) && Present(x.fs, BundleDir(root, v))
    ensures forall q :: Under(BundleDir(root, v), q) ==> SameAt(x.fs, y.fs, q)
    ensures Present(y.fs, BundleDir(root, v))
  {
    hide Next, Present, Spares;
    forall q | Under(BundleDir(root, v), q) ensures SameAt(x.fs, y.fs, q) {
      StepKeepsBundles(w, root, x, e, y, v, q);
    }
    StillPresent(x.fs, y.fs, BundleDir(root, v));
  }

  lemma StillPresent(was: Files, now: Files, dir: Path)
    requires Present(was, dir) && forall q :: Under(dir, q) ==> SameAt(was, now, q)
    ensures Present(now, dir)
  {
    var q :| q in was && Under(dir, q);
    assert SameAt(was, now, q);
  }

  lemma StepKeepsInv(w: World, root: Path, x: Shop, e: Event, y: Shop)
    requires Inv(w, root, x) && Next(w, root, x, e, y) && Harmless(root, e)
    ensures Inv(w, root, y)
  {
    hide Next, Present, Sound, PointsTo, Harmless, Spares;
    forall v | VersionShaped(v) && Present(y.fs, BundleDir(root, v)) ensures Sound(w, root, y.fs, v) {
      if Present(x.fs, BundleDir(root, v)) {
        HarmlessSpares(root, e, v);
        BundlesStay(w, root, x, e, y, v);
        SoundKept(w, root, x.fs, y.fs, v);
      } else {
        NewBundleSound(w, root, x, e, y, v);
      }
    }
    if !y.torn && PointerAt(root) in y.fs {
      PointerStaysGood(w, root, x, e, y);
    }
  }

  lemma PointerStaysGood(w: World, root: Path, x: Shop, e: Event, y: Shop)
    requires Inv(w, root, x) && Next(w, root, x, e, y) && Harmless(root, e) && !y.torn && PointerAt(root) in y.fs
    ensures exists v :: PointsTo(w, root, y.fs, v)
  {
    hide Present, Sound, PointsTo, Accepts, SameTree, StagesAs, Harmless, Spares, ExistingHash, ContentHash;
    if e.Publication? && e.effect.Pointed? {
      PlacedBundle(w, root, x, e, y);
      Pointed(w, root, y.fs, e.bundle.version, e.bundle.hash);
    } else {
      PointerSame(w, root, x, e, y);
      var v :| PointsTo(w, root, x.fs, v);
      PointsPresent(w, root, x.fs, v);
      HarmlessSpares(root, e, v);
      BundlesStay(w, root, x, e, y, v);
      SoundKept(w, root, x.fs, y.fs, v);
      var hash := ContentHashAt(w, x.fs, BundleDir(root, v)).value;
      Pointed(w, root, y.fs, v, hash);
    }
  }

  lemma PointsPresent(w: World, root: Path, fs: Files, v: string)
    requires PointsTo(w, root, fs, v)
    ensures VersionShaped(v) && Present(fs, BundleDir(root, v)) && PointerAt(root) in fs
    ensures ContentHashAt(w, fs, BundleDir(root, v)).Some?
    ensures fs[PointerAt(root)] == w.pointer(v, ContentHashAt(w, fs, BundleDir(root, v)).value)
  {
  }

  lemma Pointed(w: World, root: Path, fs: Files, v: string, hash: string)
    requires VersionShaped(v) && Present(fs, BundleDir(root, v)) && PointerAt(root) in fs
    requires ContentHashAt(w, fs, BundleDir(root, v)) == Some(hash) && fs[PointerAt(root)] == w.pointer(v, hash)
    ensures PointsTo(w, root, fs, v)
  {
  }

  lemma PointerSame(w: World, root: Path, x: Shop, e: Event, y: Shop)
    requires Next(w, root, x, e, y) && Harmless(root, e) && !y.torn && !(e.Publication? && e.effect.Pointed?)
    ensures SameAt(x.fs, y.fs, PointerAt(root)) && !x.torn
  {
    hide Accepts, Reached, StagesAs, SameTree, ExistingHash;
    var p := PointerAt(root);
    assert Under(root, p);
    if e.Publication? {
      var b := e.bundle;
      AcceptedVersion(w, x.fs, e.source);
      PlacesApart(root, b.version, b.version);
      assert Lands(root, e.source, b, p) ==> Under(StagingDir(root, b.version), p);
      if !Present(x.fs, BundleDir(root, b.version)) {
        assert Mine(root, e.source, b, e.effect, p) || SameAt(x.fs, y.fs, p);
      }
    }
  }

  /** From an empty store, over any harmless publications and edits elsewhere:
      every bundle there validates under its own version, and an intact pointer
      names a bundle that is there with the hash it has. */
  lemma {:induction false} RunKeepsInv(w: World, root: Path, states: seq<Shop>, events: seq<Event>, i: nat)
    requires IsRun(w, root, states, events) && i < |states|
    requires forall k :: 0 <= k < i ==> Harmless(root, events[k])
    ensures Inv(w, root, states[i])
  {
    hide Next, Sound, PointsTo, Harmless;
    if i == 0 {
      EmptyStore(w, root, states[0]);
    } else {
      RunKeepsInv(w, root, states, events, i - 1);
      assert Next(w, root, states[i - 1], events[i - 1], states[i - 1 + 1]);
      StepKeepsInv(w, root, states[i - 1], events[i - 1], states[i]);
    }
  }

  lemma EmptyStore(w: World, root: Path, x: Shop)
    requires !Present(x.fs, root)
    ensures Inv(w, root, x)
  {
    forall v ensures !Present(x.fs, BundleDir(root, v)) {
      forall q | q in x.fs ensures !Under(BundleDir(root, v), q) {
        assert Under(BundleDir(root, v), q) ==> Under(root, q);
      }
    }
    assert Under(root, PointerAt(root));
  }

  /** A version directory, once there, never changes again, whatever is published,
      as long as nothing is copied into it. */
  lemma {:induction false} BundlesAreImmutable(w: World, root: Path, states: seq<Shop>, events: seq<Event>,
      i: nat, j: nat, v: string)
    requires IsRun(w, root, states, events) && i <= j < |states|
    requires VersionShaped(v) && Present(states[i].fs, BundleDir(root, v))
    requires forall k :: i <= k < j ==> Spares(root, events[k], v)
    ensures Present(states[j].fs, BundleDir(root, v))
    ensures forall q :: Under(BundleDir(root, v), q) ==> SameAt(states[i].fs, states[j].fs, q)
    decreases j
  {
    hide Next, Present, Spares;
    if i < j {
      var k := j - 1;
      BundlesAreImmutable(w, root, states, events, i, k, v);
      assert Next(w, root, states[k], events[k], states[k + 1]);
      BundlesStay(w, root, states[k], events[k], states[j], v);
      forall q | Under(BundleDir(root, v), q) ensures SameAt(states[i].fs, states[j].fs, q) {
        assert SameAt(states[i].fs, states[k].fs, q) && SameAt(states[k].fs, states[j].fs, q);
      }
    }
  }

  // ------------------------------------------------------------- republishing

  /** Publishing over a bundle that is there succeeds exactly when the hashes
      agree, and then changes nothing but the active file. */
  lemma RepublishIff(w: World, root: Path, x: Shop, source: Path, staged: Files)
    requires Inv(w, root, x) && Accepts(w, x.fs, source).Some?
    requires Present(x.fs, BundleDir(root, Accepts(w, x.fs, source).value.version))
    ensures var b := Accepts(w, x.fs, source).value;
      var held := Accepts(w, x.fs, BundleDir(root, b.version));
      && held.Some? && held.value.version == b.version
      && (Publishable(w, x.fs, root, source) <==> held.value.hash == b.hash)
      && Completed(w, x.fs, root, b, staged) == x.fs[PointerAt(root) := w.pointer(b.version, b.hash)]
  {
    hide ContentHash, Validate, PointsTo;
    var b := Accepts(w, x.fs, source).value;
    AcceptedVersion(w, x.fs, source);
    assert Sound(w, root, x.fs, b.version);
    AcceptedIsAdmitted(w, x.fs, BundleDir(root, b.version));
  }

  lemma {:induction false} GatherExact(fs: Files, dir: Path, rels: seq<string>)
    ensures var r := Gather(fs, dir, rels);
      r.Gathered? ==> |r.segments| == |rels|
    ensures var r := Gather(fs, dir, rels);
      r.Gathered? ==> forall i :: 0 <= i < |rels| ==> Look(fs, dir, rels[i]).Some? && r.segments[i] == Segment(Utf8(rels[i]), Look(fs, dir, rels[i]).value)
  {
    if rels != [] {
      hide Look, Resolve, Utf8, Under, AllFit;
      var n := |rels| - 1;
      GatherExact(fs, dir, rels[..n]);
      assert forall i :: 0 <= i < n ==> rels[..n][i] == rels[i];
    }
  }

  function Gathering(fs: Files, dir: Path, m: Manifest): (r: seq<Segment>)
    ensures AllFit(r)
  {
    var g := Gather(fs, dir, SortedSet(m.Refs()));
    if g.Gathered? then g.segments else []
  }

  /** What the digest of the manifest at `dir` is taken of. */
  function HashInput(fs: Files, dir: Path, m: Manifest): Bytes { m.canonical + Frames(Gathering(fs, dir, m)) }

  /** The digest tells the two bundles' inputs apart, if they differ. */
  predicate NoCollision(w: World, fs: Files, dir: Path, fs': Files, dir': Path)
    requires Accepts(w, fs, dir).Some? && Accepts(w, fs', dir').Some?
  {
    var a := HashInput(fs, dir, Accepts(w, fs, dir).value.manifest);
    var b := HashInput(fs', dir', Accepts(w, fs', dir').value.manifest);
    w.sha(a) == w.sha(b) ==> a == b
  }

  /** Unless SHA-256 collides, accepted bundles with equal hashes have the same
      manifest JSON, the same references, and the same contents behind them. */
  lemma EqualHashesMeanEqualBundles(w: World, fs: Files, dir: Path, fs': Files, dir': Path)
    requires Accepts(w, fs, dir).Some? && Accepts(w, fs', dir').Some?
    requires Accepts(w, fs, dir).value.hash == Accepts(w, fs', dir').value.hash
    requires NoCollision(w, fs, dir, fs', dir')
    requires 0 !in Accepts(w, fs, dir).value.manifest.canonical && 0 !in Accepts(w, fs', dir').value.manifest.canonical
    ensures var m, m' := Accepts(w, fs, dir).value.manifest, Accepts(w, fs', dir').value.manifest;
      && m.canonical == m'.canonical
      && (forall rel :: rel in m.Refs() <==> rel in m'.Refs())
      && (forall rel :: rel in m.Refs() ==> Look(fs, dir, rel) == Look(fs', dir', rel))
  {
    hide Gather, Frames, Look, Validate, Admit, SortedSet, Utf8, AllFit, Hashed;
    AcceptedIsAdmitted(w, fs, dir);
    AcceptedIsAdmitted(w, fs', dir');
    var m, m' := Accepts(w, fs, dir).value.manifest, Accepts(w, fs', dir').value.manifest;
    hide Accepts;
    var rels, rels' := SortedSet(m.Refs()), SortedSet(m'.Refs());
    var g, g' := Gather(fs, dir, rels), Gather(fs', dir', rels');
    assert HashInput(fs, dir, m) == m.canonical + Frames(g.segments);
    assert HashInput(fs', dir', m') == m'.canonical + Frames(g'.segments);
    SamePrefix("sha256:", w.sha(m.canonical + Frames(g.segments)), w.sha(m'.canonical + Frames(g'.segments)));
    InputDetermines(m.canonical, g.segments, m'.canonical, g'.segments);
    SegmentsDetermine(fs, dir, rels, fs', dir', rels');
    SortedSetSorts(m.Refs());
    SortedSetSorts(m'.Refs());
    forall rel | rel in m.Refs() ensures Look(fs, dir, rel) == Look(fs', dir', rel) {
      assert rel in rels;
    }
  }

  lemma SamePrefix(p: string, a: string, b: string)
    requires p + a == p + b
    ensures a == b
  {
    assert (p + a)[|p|..] == a && (p + b)[|p|..] == b;
  }

  lemma SegmentsDetermine(fs: Files, dir: Path, rels: seq<string>, fs': Files, dir': Path, rels': seq<string>)
    requires Gather(fs, dir, rels).Gathered? && Gather(fs', dir', rels') == Gather(fs, dir, rels)
    ensures rels == rels'
    ensures forall rel :: rel in rels ==> Look(fs, dir, rel) == Look(fs', dir', rel)
  {
    hide Gather, Look, Utf8;
    GatherExact(fs, dir, rels);
    GatherExact(fs', dir', rels');
    forall i | 0 <= i < |rels| ensures rels[i] == rels'[i] {
      Utf8Injective(rels[i], rels'[i]);
    }
    forall rel | rel in rels ensures Look(fs, dir, rel) == Look(fs', dir', rel) {
      var i :| 0 <= i < |rels| && rels[i] == rel;
    }
  }

  // ------------------------------------------------- what copying may change

  ghost predicate Readable(fs: Files, source: Path, rels: seq<string>) {
    forall rel :: rel in rels ==> Under(source, Resolve(source, rel)) && Resolve(source, rel) in fs
  }

  /** Copying has reached the file `k` and is about to write it. */
  predicate Reaches(fs: Files, source: Path, dest: Path, rels: seq<string>, k: nat) {
    && k < |rels| && Copied(fs, source, dest, rels[..k]).Some?
    && Resolve(source, rels[k]) != Resolve(dest, rels[k])
  }

  /** The file `k` has anything in it when copying stops there. */
  function Half(fs: Files, source: Path, dest: Path, rels: seq<string>, k: nat, half: Bytes): Files
    requires Reaches(fs, source, dest, rels, k)
  {
    Copied(fs, source, dest, rels[..k]).value[Resolve(dest, rels[k]) := half]
  }

  /** Some point at which copying may stop has changed a file of the area. */
  ghost predicate Changes(fs: Files, source: Path, dest: Path, rels: seq<string>, area: Path -> bool) {
    exists k: nat, half, q ::
      Reaches(fs, source, dest, rels, k) && area(q) && !SameAt(fs, Half(fs, source, dest, rels, k, half), q)
  }

  lemma {:induction false} CopiedFrame(fs: Files, source: Path, dest: Path, rels: seq<string>, q: Path) returns (i: nat)
    requires Copied(fs, source, dest, rels).Some? && !SameAt(fs, Copied(fs, source, dest, rels).value, q)
    ensures i < |rels| && Resolve(dest, rels[i]) == q
  {
    hide Resolve, Under;
    var n := |rels| - 1;
    if Resolve(dest, rels[n]) == q {
      i := n;
    } else {
      i := CopiedFrame(fs, source, dest, rels[..n], q);
    }
  }

  lemma {:induction false} CopiesAll(fs: Files, source: Path, dest: Path, rels: seq<string>)
    requires Readable(fs, source, rels) && SelfFree(source, dest, rels)
    ensures Copied(fs, source, dest, rels).Some? && fs.Keys <= Copied(fs, source, dest, rels).value.Keys
  {
    hide Resolve, Under;
    if rels != [] {
      var n := |rels| - 1;
      assert rels[n] in rels;
      CopiesAll(fs, source, dest, rels[..n]);
    }
  }

  lemma SelfFreePrefix(source: Path, dest: Path, rels: seq<string>, i: nat)
    requires i <= |rels| && SelfFree(source, dest, rels)
    ensures SelfFree(source, dest, rels[..i])
  {
    hide Resolve;
  }

  /** The places that copying may change are those it reaches, in any area. */
  lemma ChangesIff(fs: Files, source: Path, dest: Path, rels: seq<string>, area: Path -> bool)
    requires Readable(fs, source, rels)
    ensures Changes(fs, source, dest, rels, area) <==> exists q :: Reached(source, dest, rels, q) && area(q)
  {
    hide Resolve, Under, Copied, SelfFree;
    if Changes(fs, source, dest, rels, area) {
      var k: nat, half, q :|
        Reaches(fs, source, dest, rels, k) && area(q) && !SameAt(fs, Half(fs, source, dest, rels, k, half), q);
      ChangedIsReached(fs, source, dest, rels, k, half, q);
    }
    if q :| Reached(source, dest, rels, q) && area(q) {
      var k :| 0 <= k < |rels| && Resolve(dest, rels[k]) == q && SelfFree(source, dest, rels[..k + 1]);
      ReachedStops(fs, source, dest, rels, k);
      var half := if q in fs then fs[q] + [0] else [];
      assert !SameAt(fs, Half(fs, source, dest, rels, k, half), q);
    }
  }

  lemma ChangedIsReached(fs: Files, source: Path, dest: Path, rels: seq<string>, k: nat, half: Bytes, q: Path)
    requires Reaches(fs, source, dest, rels, k) && !SameAt(fs, Half(fs, source, dest, rels, k, half), q)
    ensures Reached(source, dest, rels, q)
  {
    hide Resolve, Under, Copied;
    CopiedIsSelfFree(fs, source, dest, rels[..k]);
    assert rels[..k + 1] == rels[..k] + [rels[k]];
    assert SelfFree(source, dest, rels[..k + 1]);
    if Resolve(dest, rels[k]) != q {
      var i := CopiedFrame(fs, source, dest, rels[..k], q);
      assert rels[..k][..i + 1] == rels[..i + 1] && rels[..k][i] == rels[i];
      SelfFreePrefix(source, dest, rels[..k], i + 1);
    }
  }

  lemma ReachedStops(fs: Files, source: Path, dest: Path, rels: seq<string>, k: nat)
    requires Readable(fs, source, rels) && k < |rels| && SelfFree(source, dest, rels[..k + 1])
    ensures Reaches(fs, source, dest, rels, k)
  {
    hide Resolve, Under, Copied;
    assert rels[..k + 1][..k] == rels[..k] && rels[..k + 1][k] == rels[k];
    assert rels[..k + 1][k] in rels[..k + 1];
    SelfFreePrefix(source, dest, rels[..k + 1], k);
    CopiesAll(fs, source, dest, rels[..k]);
  }

  /** Of an accepted bundle outside the staging directory everything is readable
      once that has been emptied. */
  lemma AcceptedFilesReadable(w: World, was: Files, root: Path, source: Path, b: Bundle)
    requires Accepts(w, was, source) == Some(b)
    requires !Under(StagingDir(root, b.version), source) && !Under(source, StagingDir(root, b.version))
    ensures Readable(Without(was, StagingDir(root, b.version)), source, PublishedPaths(b.manifest))
  {
    hide Validate, ContentHash, Admit, Parts, Resolve;
    var s := StagingDir(root, b.version);
    AcceptedIsAdmitted(w, was, source);
    AcceptedIsReadable(w, was, source);
    AcceptedStaysInside(w, was, source);
    PlainStays(MANIFEST);
    forall rel | rel in PublishedPaths(b.manifest)
      ensures Under(source, Resolve(source, rel)) && Resolve(source, rel) in Without(was, s)
    {
      assert rel == MANIFEST || rel in b.manifest.Refs();
      var p := Resolve(source, rel);
      assert Resolve(source, MANIFEST) == source + [MANIFEST];
      Disjoint(source, s, p[|source|..]);
      assert p == source + p[|source|..];
    }
  }

  /** Publishing an accepted bundle leaves the directory of another version alone,
      wherever it may stop, exactly when it spares it. */
  lemma SparesIff(w: World, was: Files, root: Path, e: Event, v: string)
    requires e.Publication? && Accepts(w, was, e.source) == Some(e.bundle)
    requires !Under(StagingDir(root, e.bundle.version), e.source) && !Under(e.source, StagingDir(root, e.bundle.version))
    ensures var s := StagingDir(root, e.bundle.version);
      Spares(root, e, v) <==>
        !Changes(Without(was, s), e.source, s, PublishedPaths(e.bundle.manifest), q => Under(BundleDir(root, v), q))
  {
    hide Accepts, Under, Reached, Changes, Readable;
    var b, s := e.bundle, StagingDir(root, e.bundle.version);
    AcceptedFilesReadable(w, was, root, e.source, b);
    ChangesIff(Without(was, s), e.source, s, PublishedPaths(b.manifest), q => Under(BundleDir(root, v), q));
  }

  /** No reference climbs exactly when every file has its place in the staging
      directory and, once that is renamed, in the bundle's. */
  lemma AllStayIff(root: Path, b: Bundle)
    requires VersionShaped(b.version)
    ensures b.manifest.AllStay() <==> (forall rel :: rel in PublishedPaths(b.manifest) ==>
      && Under(StagingDir(root, b.version), Resolve(StagingDir(root, b.version), rel))
      && Under(BundleDir(root, b.version), Resolve(BundleDir(root, b.version), rel)))
  {
    hide Resolve, Stays, Under, Parts, Inner;
    SiblingsDiffer(b.version);
    PlainStays(MANIFEST);
    forall rel
      ensures Stays(rel) <==> (Under(StagingDir(root, b.version), Resolve(StagingDir(root, b.version), rel))
        && Under(BundleDir(root, b.version), Resolve(BundleDir(root, b.version), rel)))
    {
      StaysIffInsideSiblings(root + ["bundles"], ".staging-" + b.version, b.version, rel);
    }
    assert forall rel :: rel in PublishedPaths(b.manifest) <==> rel == MANIFEST || rel in b.manifest.Refs();
  }

  /** Unless SHA-256 collides, what is put in place validates there exactly when
      no reference of the accepted bundle climbs. */
  lemma PlacedValidatesIff(w: World, was: Files, root: Path, source: Path, b: Bundle, staged: Files, now: Files)
    requires Accepts(w, was, source) == Some(b) && StagesAs(w, was, root, source, b, staged)
    requires SameTree(staged, StagingDir(root, b.version), now, BundleDir(root, b.version))
    requires NoCollision(w, was, source, staged, StagingDir(root, b.version))
    requires 0 !in b.manifest.canonical
    requires 0 !in Accepts(w, staged, StagingDir(root, b.version)).value.manifest.canonical
    ensures Accepts(w, now, BundleDir(root, b.version)).Some? <==> b.manifest.AllStay()
  {
    hide Stays, SameTree, Gathering;
    AcceptedVersion(w, was, source);
    NewBundleValidatesIff(w, was, root, source, b, staged, now);
    hide StagedFrom;
    EqualHashesMeanEqualBundles(w, was, source, staged, StagingDir(root, b.version));
  }

  // -------------------------------------------------- references that climb

  const CLIMBING := "../1.0.0/r.json"

  lemma ClimbingParts()
    ensures Parts(CLIMBING) == ["..", "1.0.0", "r.json"] && !Absolute(CLIMBING)
  {
    hide Parts;
    PlainParts("r.json");
    PartsOf("1.0.0", "r.json");
    PartsOf("..", "1.0.0/r.json");
    assert "1.0.0" + "/" + "r.json" == "1.0.0/r.json";
    assert ".." + "/" + "1.0.0/r.json" == CLIMBING;
  }

  lemma WalkUp(parent: Path, last: string)
    ensures Walk(parent + [last], [".."]) == parent
  {
    assert [".."][..0] == [];
    assert (parent + [last])[..|parent|] == parent;
  }

  lemma WalkDown(at: Path, parts: seq<string>, part: string)
    requires part != "" && part[0] != '.'
    ensures Walk(at, parts + [part]) == Walk(at, parts) + [part]
  {
    assert (parts + [part])[..|parts|] == parts;
  }

  lemma Walked(parent: Path, last: string)
    ensures Walk(parent + [last], ["..", "1.0.0", "r.json"]) == parent + ["1.0.0"] + ["r.json"]
  {
    hide Walk;
    WalkUp(parent, last);
    WalkDown(parent + [last], [".."], "1.0.0");
    WalkDown(parent + [last], [".."] + ["1.0.0"], "r.json");
    assert [".."] + ["1.0.0"] + ["r.json"] == ["..", "1.0.0", "r.json"];
  }

  function OldRole(root: Path): Path { BundleDir(root, "1.0.0") + ["r.json"] }

  /** A reference may leave its directory and come back by the directory's name.
      Resolved against staging, it then leads into another version's directory. */
  lemma ClimbingLeadsElsewhere(root: Path, at: Path)
    ensures Resolve(at + ["1.0.0"], CLIMBING) == at + ["1.0.0"] + ["r.json"]
    ensures Resolve(StagingDir(root, "2.0.0"), CLIMBING) == OldRole(root)
    ensures !Under(StagingDir(root, "2.0.0"), OldRole(root)) && VersionShaped("1.0.0")
  {
    hide Parts, Walk;
    ClimbingParts();
    var source, s := at + ["1.0.0"], StagingDir(root, "2.0.0");
    Walked(at, "1.0.0");
    Walked(root + ["bundles"], ".staging-2.0.0");
    assert ".staging-" + "2.0.0" == ".staging-2.0.0";
    PlainVersion();
    PlacesApart(root, "1.0.0", "2.0.0");
  }

  lemma PlainVersion()
    ensures VersionShaped("1.0.0") && VersionShaped("2.0.0")
  {
  }

  /** Copying three files one after the other. */
  lemma CopyThree(fs: Files, source: Path, dest: Path, a: string, b: string, c: string)
    requires Readable(fs, source, [a, b, c]) && SelfFree(source, dest, [a, b, c])
    requires Resolve(dest, a) != Resolve(source, b) && Resolve(dest, a) != Resolve(dest, b)
    requires Resolve(dest, c) != Resolve(dest, a) && Resolve(dest, c) != Resolve(dest, b)
    ensures var all := Copied(fs, source, dest, [a, b, c]);
      && all.Some? && Resolve(dest, a) in all.value && Resolve(dest, b) in all.value
      && all.value[Resolve(dest, a)] == fs[Resolve(source, a)] && all.value[Resolve(dest, b)] == fs[Resolve(source, b)]
  {
    hide Resolve, Under;
    CopiesAll(fs, source, dest, [a, b, c]);
    assert [a, b, c][..2] == [a, b] && [a, b][..1] == [a] && [a][..0] == [];
    assert a in [a, b, c] && b in [a, b, c];
    assert Copied(fs, source, dest, []) == Some(fs);
    assert Copied(fs, source, dest, [a]) == Some(fs[Resolve(dest, a) := fs[Resolve(source, a)]]);
  }

  lemma PlacesOf(root: Path, source: Path, name: string)
    requires !Under(root, source) && !Under(source, root)
    ensures StagingDir(root, "2.0.0") + [name] != source + ["r.json"] && OldRole(root) != source + ["r.json"]
    ensures StagingDir(root, "2.0.0") + [name] != source + [name] && StagingDir(root, "2.0.0") + [name] != OldRole(root)
  {
    Disjoint(source, root, ["r.json"]);
    Disjoint(source, root, [name]);
    PlainVersion();
    PlacesApart(root, "1.0.0", "2.0.0");
    assert Under(root, StagingDir(root, "2.0.0") + [name]) && Under(root, OldRole(root));
    assert Under(StagingDir(root, "2.0.0"), StagingDir(root, "2.0.0") + [name]);
    assert Under(BundleDir(root, "1.0.0"), OldRole(root));
  }

  /** Beside a published version 1.0.0, publishing a bundle of version 2.0.0 whose
      directory happens to have that name and one of whose references leaves it and
      comes back: refused, yet a file of version 1.0.0 is overwritten. */
  lemma ClimbingOverwrites(w: World, fs: Files, root: Path, at: Path, b: Bundle)
    requires Sound(w, root, fs, "1.0.0") && OldRole(root) in fs && !Present(fs, BundleDir(root, "2.0.0"))
    requires !Under(root, at + ["1.0.0"]) && !Under(at + ["1.0.0"], root)
    requires Accepts(w, fs, at + ["1.0.0"]) == Some(b) && b.version == "2.0.0"
    requires b.manifest.roles == [CLIMBING] && b.manifest.procedures == ["p.json"]
    ensures at + ["1.0.0"] + ["r.json"] in fs && !Publishable(w, fs, root, at + ["1.0.0"])
    ensures var left := Leftover(fs, root, at + ["1.0.0"], b);
      OldRole(root) in left && left[OldRole(root)] == fs[at + ["1.0.0"] + ["r.json"]]
  {
    hide Resolve, Parts, Inner, Accepts, Under, CopiedFar, Copied;
    var source, s := at + ["1.0.0"], StagingDir(root, "2.0.0");
    ClimbingLeadsElsewhere(root, at);
    PlainStays(MANIFEST);
    PlainStays("p.json");
    PlacesOf(root, source, MANIFEST);
    PlacesOf(root, source, "p.json");
    assert MANIFEST[0] == 'm' && "p.json"[0] == 'p';
    assert (s + [MANIFEST])[|s|] == MANIFEST && (s + ["p.json"])[|s|] == "p.json";
    SourceApart(root, source);
    AcceptedFilesReadable(w, fs, root, source, b);
    var empty, rels := Without(fs, s), [MANIFEST, CLIMBING, "p.json"];
    assert PublishedPaths(b.manifest) == rels;
    assert Resolve(source, MANIFEST) == source + [MANIFEST] && Resolve(s, MANIFEST) == s + [MANIFEST];
    assert Resolve(source, "p.json") == source + ["p.json"] && Resolve(s, "p.json") == s + ["p.json"];
    CopyThree(empty, source, s, MANIFEST, CLIMBING, "p.json");
    FarIsAll(empty, source, s, rels);
    NotStaged(w, fs, root, source, b);
    assert CLIMBING in rels && source + ["r.json"] in empty;
  }

  /** The staged bundle is rejected: the reference leads out of staging. */
  lemma NotStaged(w: World, fs: Files, root: Path, source: Path, b: Bundle)
    requires Accepts(w, fs, source) == Some(b) && b.version == "2.0.0" && !Present(fs, BundleDir(root, "2.0.0"))
    requires CLIMBING in b.manifest.Refs()
    requires !Under(StagingDir(root, "2.0.0"), Resolve(StagingDir(root, "2.0.0"), CLIMBING))
    requires var s := StagingDir(root, "2.0.0");
      var staged := StagedFrom(fs, root, source, b);
      staged.Some? && s + [MANIFEST] in staged.value && source + [MANIFEST] in fs
      && staged.value[s + [MANIFEST]] == fs[source + [MANIFEST]]
    ensures !Publishable(w, fs, root, source)
  {
    hide Resolve, Under, Validate, Admit, StagedFrom, ContentHash;
    var s := StagingDir(root, "2.0.0");
    var staged := StagedFrom(fs, root, source, b).value;
    AcceptedIsAdmitted(w, fs, source);
    if Accepts(w, staged, s).Some? {
      AcceptedIsAdmitted(w, staged, s);
      AcceptedStaysInside(w, staged, s);
    }
  }

  lemma SourceApart(root: Path, source: Path)
    requires !Under(root, source) && !Under(source, root)
    ensures !Under(StagingDir(root, "2.0.0"), source) && !Under(source, StagingDir(root, "2.0.0"))
  {
    var s := StagingDir(root, "2.0.0");
    assert Under(root, s);
    Chain(root, s, source);
    Compare(root, source, s);
  }

  lemma Chain(a: Path, b: Path, c: Path)
    ensures Under(a, b) && Under(b, c) ==> Under(a, c)
  {
    if Under(a, b) && Under(b, c) { assert c[..|a|] == c[..|b|][..|a|]; }
  }

  lemma Compare(a: Path, b: Path, c: Path)
    ensures Under(a, c) && Under(b, c) ==> Under(a, b) || Under(b, a)
  {
    if Under(a, c) && Under(b, c) {
      if |a| <= |b| { assert b[..|a|] == c[..|b|][..|a|]; } else { assert a[..|b|] == c[..|a|][..|b|]; }
    }
  }

  lemma {:induction false} GatherAll(fs: Files, dir: Path, rels: seq<string>)
    requires forall rel :: rel in rels ==> Look(fs, dir, rel).Some? && Under(dir, Resolve(dir, rel))
    requires forall rel :: rel in rels ==> |Utf8(rel)| < LIMIT && |Look(fs, dir, rel).value| < LIMIT
    ensures Gather(fs, dir, rels).Gathered?
  {
    if rels != [] {
      hide Look, Resolve, Utf8, Under;
      GatherAll(fs, dir, rels[..|rels| - 1]);
    }
  }

  lemma {:induction false} Utf8Short(s: string)
    ensures |Utf8(s)| <= 4 * |s|
  {
    if s != "" {
      hide Utf8Char;
      Utf8Short(s[1..]);
    }
  }

  /** A bundle of one role and one procedure is accepted. */
  lemma SmallBundle(w: World, fs: Files, dir: Path, m: Manifest, role: Role, procedure: Procedure)
    requires dir + [MANIFEST] in fs && w.manifestOf(fs[dir + [MANIFEST]]) == Some(m) && m.MeetsSchema()
    requires |m.roles| == 1 && |m.procedures| == 1
    requires forall rel :: rel in m.Refs() ==> Look(fs, dir, rel).Some? && Under(dir, Resolve(dir, rel))
    requires forall rel :: rel in m.Refs() ==> |Utf8(rel)| < LIMIT && |Look(fs, dir, rel).value| < LIMIT
    requires w.roleOf(Look(fs, dir, m.roles[0]).value) == Some(role) && role.clean && role.id.Some?
    requires w.procedureOf(Look(fs, dir, m.procedures[0]).value) == Some(procedure) && procedure.clean && procedure.id.Some?
    requires role.refs == [Ref(procedure.id, procedure.revision)]
    requires m.declared == Some("sha256:" + w.sha(m.canonical + Frames(Gathering(fs, dir, m))))
    ensures Accepts(w, fs, dir) == Some(Bundle(m.version.value, m.declared.value, m))
  {
    hide Resolve, Look, Gather, Frames, SortedSet, Utf8, Under, ReadRoles, ReadProcedures, ContentHash, Gathering;
    assert m.roles[0] in m.Refs() && m.procedures[0] in m.Refs();
    HashOfGathering(w, fs, dir, m);
    OneRole(w, fs, dir, m.roles, role);
    OneProcedure(w, fs, dir, m.procedures, procedure);
    var roles, procedures := map[role.id.value := role], map[procedure.id.value := procedure];
    assert CrossRefsHold(roles, procedures) && RefsPresent(roles, procedures);
    hide CrossRefsHold, RefsPresent;
    assert Hashed(m.declared.value);
    assert Validate(w, fs, dir) == Some(Verdict(true, m.declared, Some(m), roles, procedures));
  }

  lemma HashOfGathering(w: World, fs: Files, dir: Path, m: Manifest)
    requires forall rel :: rel in m.Refs() ==> Look(fs, dir, rel).Some? && Under(dir, Resolve(dir, rel))
    requires forall rel :: rel in m.Refs() ==> |Utf8(rel)| < LIMIT && |Look(fs, dir, rel).value| < LIMIT
    ensures ContentHash(w, fs, dir, m) == Digest("sha256:" + w.sha(m.canonical + Frames(Gathering(fs, dir, m))))
  {
    hide Resolve, Look, Gather, Frames, SortedSet, Utf8, Under, AllFit;
    SortedSetSorts(m.Refs());
    GatherAll(fs, dir, SortedSet(m.Refs()));
  }

  lemma OneRole(w: World, fs: Files, dir: Path, rels: seq<string>, role: Role)
    requires |rels| == 1 && Look(fs, dir, rels[0]).Some?
    requires w.roleOf(Look(fs, dir, rels[0]).value) == Some(role) && role.clean && role.id.Some?
    ensures ReadRoles(w, fs, dir, rels) == (map[role.id.value := role], true)
  {
    hide Look;
    assert rels[..0] == [];
  }

  lemma OneProcedure(w: World, fs: Files, dir: Path, rels: seq<string>, procedure: Procedure)
    requires |rels| == 1 && Look(fs, dir, rels[0]).Some?
    requires w.procedureOf(Look(fs, dir, rels[0]).value) == Some(procedure) && procedure.clean && procedure.id.Some?
    ensures ReadProcedures(w, fs, dir, rels) == (map[procedure.id.value := procedure], true)
  {
    hide Look;
    assert rels[..0] == [];
  }

  // A store in which that happens, for every digest and any JSON texts.

  predicate HexDigest(h: string) { |h| == 64 && forall i :: 0 <= i < 64 ==> Hex(h[i]) }

  lemma DigestShaped(h: string)
    requires HexDigest(h)
    ensures HashShaped("sha256:" + h)
  {
    var d := "sha256:" + h;
    assert forall i :: 7 <= i < 71 ==> d[i] == h[i - 7];
  }

  const ROLE := Role(true, Some("r"), [Ref(Some("p"), Some("1.0.0"))])
  const PROCEDURE := Procedure(true, Some("p"), Some("1.0.0"))

  /** A bundle of one role and one procedure in plain sight, with the hash it has. */
  ghost predicate Small(w: World, fs: Files, dir: Path, m: Manifest, role: string) {
    && dir + [MANIFEST] in fs && w.manifestOf(fs[dir + [MANIFEST]]) == Some(m)
    && m.roles == [role] && m.procedures == ["p.json"] && |role| < 100
    && Resolve(dir, role) == dir + ["r.json"]
    && dir + ["r.json"] in fs && w.roleOf(fs[dir + ["r.json"]]) == Some(ROLE) && |fs[dir + ["r.json"]]| < LIMIT
    && dir + ["p.json"] in fs && w.procedureOf(fs[dir + ["p.json"]]) == Some(PROCEDURE) && |fs[dir + ["p.json"]]| < LIMIT
    && m.clean && m.version.Some? && VersionShaped(m.version.value)
    && HexDigest(w.sha(HashInput(fs, dir, m)))
    && m.declared == Some("sha256:" + w.sha(HashInput(fs, dir, m)))
  }

  lemma SmallIsAccepted(w: World, fs: Files, dir: Path, m: Manifest, role: string)
    requires Small(w, fs, dir, m, role)
    ensures Accepts(w, fs, dir) == Some(Bundle(m.version.value, m.declared.value, m))
  {
    hide Resolve, Gathering, Accepts, Utf8, Hex, VersionShaped, Parts, Inner, Stays, HashShaped, Under, Frames;
    PlainStays("p.json");
    Utf8Short(role);
    Utf8Short("p.json");
    DigestShaped(w.sha(HashInput(fs, dir, m)));
    assert m.Refs() == [role, "p.json"];
    assert Resolve(dir, "p.json") == dir + ["p.json"];
    Inside(dir, "r.json");
    Inside(dir, "p.json");
    SmallBundle(w, fs, dir, m, ROLE, PROCEDURE);
  }

  lemma Inside(dir: Path, name: string)
    ensures Under(dir, dir + [name])
  {
  }

  const STORE: Path := ["store"]
  const SRC: Path := ["src"]

  function Manifest0(version: string, role: string, canonical: Bytes): Manifest {
    Manifest(true, Some(version), [role], ["p.json"], None, canonical)
  }

  /** The manifest with the hash of its directory declared in it. */
  function Declaring(sha: Bytes -> string, fs: Files, dir: Path, m: Manifest): Manifest {
    m.(declared := Some("sha256:" + sha(HashInput(fs, dir, m))))
  }

  lemma DeclaringSame(sha: Bytes -> string, fs: Files, dir: Path, m: Manifest)
    ensures HashInput(fs, dir, Declaring(sha, fs, dir, m)) == HashInput(fs, dir, m)
  {
    assert Declaring(sha, fs, dir, m).Refs() == m.Refs();
  }

  const OLD: Path := STORE + ["bundles"] + ["1.0.0"]
  const NEW: Path := SRC + ["1.0.0"]

  const FILES: Files := map[
    OLD + [MANIFEST] := [1], OLD + ["r.json"] := [2], OLD + ["p.json"] := [3],
    NEW + [MANIFEST] := [4], NEW + ["r.json"] := [5], NEW + ["p.json"] := [3]]

  lemma FilesHold()
    ensures FILES.Keys == {OLD + [MANIFEST], OLD + ["r.json"], OLD + ["p.json"], NEW + [MANIFEST], NEW + ["r.json"], NEW + ["p.json"]}
    ensures FILES[OLD + [MANIFEST]] == [1] && FILES[OLD + ["r.json"]] == [2] && FILES[OLD + ["p.json"]] == [3]
    ensures FILES[NEW + [MANIFEST]] == [4] && FILES[NEW + ["r.json"]] == [5] && FILES[NEW + ["p.json"]] == [3]
  {
    assert "r.json"[0] == 'r' && "p.json"[0] == 'p' && MANIFEST[0] == 'm';
    var a, b, c, d, e, f := OLD + [MANIFEST], OLD + ["r.json"], OLD + ["p.json"], NEW + [MANIFEST], NEW + ["r.json"], NEW + ["p.json"];
    assert |a| == |b| == |c| == 4 && |d| == |e| == |f| == 3;
    assert a[3] == MANIFEST && b[3] == "r.json" && c[3] == "p.json";
    assert d[2] == MANIFEST && e[2] == "r.json" && f[2] == "p.json";
  }

  function ExampleWorld(sha: Bytes -> string, m1: Manifest, m2: Manifest): World {
    World(
      (x: Bytes) => if x == [1] then Some(m1) else if x == [4] then Some(m2) else None,
      (x: Bytes) => if x == [2] || x == [5] then Some(ROLE) else None,
      (x: Bytes) => if x == [3] then Some(PROCEDURE) else None,
      sha,
      (version, hash) => [])
  }

  function Published(sha: Bytes -> string, canonical: Bytes): Manifest {
    Declaring(sha, FILES, OLD, Manifest0("1.0.0", "r.json", canonical))
  }

  function Proposed(sha: Bytes -> string, canonical: Bytes): Manifest {
    Declaring(sha, FILES, NEW, Manifest0("2.0.0", CLIMBING, canonical))
  }

  lemma ExampleSmall(sha: Bytes -> string, canonical: Bytes)
    requires forall x :: HexDigest(sha(x))
    ensures var w := ExampleWorld(sha, Published(sha, canonical), Proposed(sha, canonical));
      Small(w, FILES, OLD, Published(sha, canonical), "r.json") && Small(w, FILES, NEW, Proposed(sha, canonical), CLIMBING)
  {
    hide FILES, HashInput, HexDigest, Resolve, Parts, Inner, Stays, CLIMBING, OLD, NEW;
    FilesHold();
    PlainVersion();
    PlainStays("r.json");
    ClimbingShort();
    assert Resolve(OLD, "r.json") == OLD + ["r.json"];
    assert NEW == SRC + ["1.0.0"] by { NewIs(); }
    ClimbingLeadsElsewhere(STORE, SRC);
    DeclaringSame(sha, FILES, OLD, Manifest0("1.0.0", "r.json", canonical));
    DeclaringSame(sha, FILES, NEW, Manifest0("2.0.0", CLIMBING, canonical));
  }

  lemma ClimbingShort()
    ensures |CLIMBING| < 100
  {
  }

  lemma NewIs()
    ensures NEW == SRC + ["1.0.0"] && OLD == BundleDir(STORE, "1.0.0")
  {
  }

  lemma ExamplePlaces(p: Path)
    requires p in FILES
    ensures !Under(STORE + ["bundles"] + ["2.0.0"], p) && p != PointerAt(STORE)
    ensures forall v :: Under(BundleDir(STORE, v), p) ==> v == "1.0.0"
  {
    FilesHold();
    assert "store"[0] == 's' && "src"[1] == 'r' && "store"[1] == 't';
    assert "1.0.0"[0] == '1' && "2.0.0"[0] == '2';
    var d := STORE + ["bundles"] + ["2.0.0"];
    assert d[0] == "store" && d[2] == "2.0.0" && NEW[0] == "src" && OLD[2] == "1.0.0";
    if p[0] == "src" {
      assert forall v :: BundleDir(STORE, v)[0] == "store";
    } else {
      assert p[2] == "1.0.0" && |p| == 4;
      assert forall v :: BundleDir(STORE, v)[2] == v;
    }
  }

  lemma ExampleApart()
    ensures NEW == SRC + ["1.0.0"] && OLD == BundleDir(STORE, "1.0.0") && OldRole(STORE) in FILES
    ensures !Under(STORE, NEW) && !Under(NEW, STORE) && !Present(FILES, BundleDir(STORE, "2.0.0"))
    ensures FILES[OldRole(STORE)] != FILES[NEW + ["r.json"]]
  {
    FilesHold();
    forall p | p in FILES ensures !Under(BundleDir(STORE, "2.0.0"), p) { ExamplePlaces(p); }
    assert NEW[0] == "src" && STORE[0] == "store" && "src"[1] == 'r' && "store"[1] == 't';
  }

  lemma ExampleSound(w: World, m: Manifest)
    requires m.declared.Some? && Accepts(w, FILES, OLD) == Some(Bundle("1.0.0", m.declared.value, m))
    requires m.Refs() == ["r.json", "p.json"]
    ensures Inv(w, STORE, Shop(FILES, false)) && Sound(w, STORE, FILES, "1.0.0")
  {
    hide FILES, Accepts, Parts, Inner, Stays, VersionShaped, Resolve, PointsTo;
    NewIs();
    PlainStays("r.json");
    PlainStays("p.json");
    forall p | p in FILES
      ensures p != PointerAt(STORE) && forall v :: Under(BundleDir(STORE, v), p) ==> v == "1.0.0"
    {
      ExamplePlaces(p);
    }
  }

  /** For every digest of 64 hex characters: a store all of whose bundles are
      sound, and beside it an accepted bundle whose refused publication alters one. */
  lemma ClimbingExample(sha: Bytes -> string, canonical: Bytes) returns (w: World, b: Bundle)
    requires forall x :: HexDigest(sha(x))
    ensures w.sha == sha && Inv(w, STORE, Shop(FILES, false)) && Sound(w, STORE, FILES, "1.0.0")
    ensures Accepts(w, FILES, NEW) == Some(b) && !Publishable(w, FILES, STORE, NEW)
    ensures !SameAt(FILES, Leftover(FILES, STORE, NEW, b), OldRole(STORE)) && OldRole(STORE) in FILES
  {
    hide Sound, Accepts, Small, FILES, HashInput, CLIMBING, Publishable, Leftover, Inv, Under, OLD, NEW, OldRole, Present;
    var m1, m2 := Published(sha, canonical), Proposed(sha, canonical);
    w := ExampleWorld(sha, m1, m2);
    ExampleSmall(sha, canonical);
    SmallIsAccepted(w, FILES, OLD, m1, "r.json");
    SmallIsAccepted(w, FILES, NEW, m2, CLIMBING);
    assert m1.Refs() == ["r.json", "p.json"];
    ExampleSound(w, m1);
    b := Bundle("2.0.0", m2.declared.value, m2);
    ExampleApart();
    ClimbingOverwrites(w, FILES, STORE, SRC, b);
  }
}
