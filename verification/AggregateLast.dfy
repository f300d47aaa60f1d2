/** For cumulative exports the index is the one built from each project's last export. */
module AggregateLast {
  import opened Text
  import opened Aggregate

  // ------------------------------------------------------------ last exports

  predicate HasProject(docs: seq<Doc>, project: string) {
    exists d :: d in docs && d.project == project
  }

  /** Each project's last export, in scan order. */
  function LastOnly(docs: seq<Doc>): seq<Doc> {
    if docs == [] then []
    else if HasProject(docs[1..], docs[0].project) then LastOnly(docs[1..])
    else [docs[0]] + LastOnly(docs[1..])
  }

  function LastOf(docs: seq<Doc>, project: string): Option<Doc> {
    if docs == [] then None
    else if docs[|docs| - 1].project == project then Some(docs[|docs| - 1])
    else LastOf(docs[..|docs| - 1], project)
  }

  lemma {:induction false} LastOfCons(d: Doc, docs: seq<Doc>, project: string)
    ensures LastOf([d] + docs, project) ==
      if LastOf(docs, project).Some? then LastOf(docs, project) else if d.project == project then Some(d) else None
  {
    if docs == [] {
      assert ([d] + docs)[..0] == [];
    } else {
      var n := |docs| - 1;
      assert ([d] + docs)[..n + 1] == [d] + docs[..n];
      LastOfCons(d, docs[..n], project);
    }
  }

  lemma {:induction false} LastOfHas(docs: seq<Doc>, project: string)
    ensures LastOf(docs, project).Some? <==> HasProject(docs, project)
    ensures LastOf(docs, project).Some? ==> LastOf(docs, project).value in docs && LastOf(docs, project).value.project == project
  {
    if docs != [] {
      var n := |docs| - 1;
      LastOfHas(docs[..n], project);
      assert forall d :: d in docs <==> d in docs[..n] || d == docs[n];
    }
  }

  lemma {:induction false} LastOnlyMeans(docs: seq<Doc>, project: string)
    ensures LastOf(LastOnly(docs), project) == LastOf(docs, project)
    ensures forall d :: d in LastOnly(docs) ==> LastOf(docs, d.project) == Some(d)
  {
    if docs != [] {
      hide LastOf, HasProject;
      var d, rest := docs[0], docs[1..];
      assert docs == [d] + rest;
      LastOnlyMeans(rest, project);
      LastOfHas(rest, project);
      LastOfHas(rest, d.project);
      LastOfCons(d, rest, project);
      LastOfCons(d, LastOnly(rest), project);
      forall e | e in LastOnly(docs) ensures LastOf(docs, e.project) == Some(e) {
        LastOfCons(d, rest, e.project);
        if e in LastOnly(rest) {
          assert LastOf(rest, e.project) == Some(e);
        }
      }
    }
  }

  // ------------------------------------------------------------ best by identity

  /** The item kept for an identity when every item has an id. */
  function Best(items: seq<Item>, key: string): Option<Item> {
    if items == [] then None
    else Better(Best(items[..|items| - 1], key), items[|items| - 1], key)
  }

  function Better(best: Option<Item>, item: Item, key: string): Option<Item> {
    if IdKey(item) == key && (best.None? || AtMost(best.value.Ranked(), item.Ranked())) then Some(item) else best
  }

  lemma {:induction false} KeptIsBest(items: seq<Item>, key: string)
    requires forall item :: item in items ==> item.Identified()
    ensures key in KeepAll(items).at <==> Best(items, key).Some?
    ensures key in KeepAll(items).at ==> KeepAll(items).at[key] == Best(items, key).value.AsEntry()
  {
    if items != [] {
      hide AtMost, IdKey, Item.Ranked, Item.Identified;
      var n := |items| - 1;
      assert items[n] in items;
      KeptIsBest(items[..n], key);
    }
  }

  /** No item of this identity outranks the best. */
  ghost predicate Tops(best: Option<Item>, items: seq<Item>, key: string) {
    && (best.Some? ==> best.value in items && IdKey(best.value) == key)
    && forall item :: item in items && IdKey(item) == key ==> best.Some? && AtMost(item.Ranked(), best.value.Ranked())
  }

  lemma {:induction false} BestTops(items: seq<Item>, key: string)
    ensures Tops(Best(items, key), items, key)
  {
    if items != [] {
      hide Tops, Better;
      var n := |items| - 1;
      BestTops(items[..n], key);
      BetterTops(Best(items[..n], key), items, key);
    }
  }

  lemma BetterTops(best: Option<Item>, items: seq<Item>, key: string)
    requires items != [] && Tops(best, items[..|items| - 1], key)
    ensures Tops(Better(best, items[|items| - 1], key), items, key)
  {
    hide AtMost, IdKey, Item.Ranked;
    var n := |items| - 1;
    var last := items[n];
    var now := Better(best, last, key);
    RanksOrder(last.Ranked(), last.Ranked(), last.Ranked());
    assert forall item :: item in items <==> item in items[..n] || item == last;
    forall item | item in items && IdKey(item) == key ensures now.Some? && AtMost(item.Ranked(), now.value.Ranked()) {
      if best.Some? {
        RanksOrder(item.Ranked(), best.value.Ranked(), last.Ranked());
        RanksOrder(last.Ranked(), best.value.Ranked(), last.Ranked());
      }
    }
  }

  /** The best of two stretches; the later one wins ties. */
  function Join(a: Option<Item>, b: Option<Item>): Option<Item> {
    if b.Some? && (a.None? || AtMost(a.value.Ranked(), b.value.Ranked())) then b else a
  }

  lemma {:induction false} BestAppend(xs: seq<Item>, ys: seq<Item>, key: string)
    ensures Best(xs + ys, key) == Join(Best(xs, key), Best(ys, key))
  {
    hide AtMost, IdKey, Item.Ranked;
    if ys == [] {
      assert xs + ys == xs;
    } else {
      var n := |ys| - 1;
      assert (xs + ys)[..|xs| + n] == xs + ys[..n] && (xs + ys)[|xs| + n] == ys[n];
      BestAppend(xs, ys[..n], key);
      JoinBetter(Best(xs, key), Best(ys[..n], key), ys[n], key);
    }
  }

  lemma JoinBetter(a: Option<Item>, b: Option<Item>, item: Item, key: string)
    ensures Better(Join(a, b), item, key) == Join(a, Better(b, item, key))
  {
    hide AtMost, IdKey, Item.Ranked;
    if a.Some? && b.Some? {
      RanksOrder(a.value.Ranked(), b.value.Ranked(), item.Ranked());
      RanksOrder(b.value.Ranked(), a.value.Ranked(), item.Ranked());
      RanksOrder(b.value.Ranked(), item.Ranked(), a.value.Ranked());
      RanksOrder(a.value.Ranked(), item.Ranked(), b.value.Ranked());
      RanksOrder(item.Ranked(), b.value.Ranked(), a.value.Ranked());
    }
  }

  // -------------------------------------------------------- cumulative exports

  /** A later export of a project repeats every observation of an earlier one, at
      no lower a rank, and was generated no earlier. */
  ghost predicate Carries(earlier: Doc, later: Doc) {
    && NotBefore(later.generated, earlier.generated)
    && forall item :: item in ItemsOf(earlier) ==> CarriedBy(item, later)
  }

  ghost predicate CarriedBy(item: Item, later: Doc) {
    exists other :: other in ItemsOf(later) && IdKey(other) == IdKey(item) && AtMost(item.Ranked(), other.Ranked())
  }

  ghost predicate Cumulative(docs: seq<Doc>) {
    forall i, j :: 0 <= i < j < |docs| && docs[i].project == docs[j].project ==> Carries(docs[i], docs[j])
  }

  ghost predicate AllIdentified(docs: seq<Doc>) {
    forall d, item :: d in docs && item in ItemsOf(d) ==> item.Identified()
  }

  lemma {:induction false} FlattenCons(d: Doc, docs: seq<Doc>)
    ensures Flatten([d] + docs) == ItemsOf(d) + Flatten(docs)
  {
    hide ItemsOf;
    if docs == [] {
      assert ([d] + docs)[..0] == [];
      assert Flatten([d] + docs) == [] + ItemsOf(d);
    } else {
      var n := |docs| - 1;
      assert ([d] + docs)[..n + 1] == [d] + docs[..n];
      FlattenCons(d, docs[..n]);
      assert ItemsOf(d) + (Flatten(docs[..n]) + ItemsOf(docs[n])) == ItemsOf(d) + Flatten(docs[..n]) + ItemsOf(docs[n]);
    }
  }

  lemma {:induction false} FlattenHas(docs: seq<Doc>, item: Item)
    ensures item in Flatten(docs) <==> exists d :: d in docs && item in ItemsOf(d)
  {
    hide ItemsOf;
    if docs != [] {
      var n := |docs| - 1;
      FlattenHas(docs[..n], item);
      assert forall d :: d in docs <==> d in docs[..n] || d == docs[n];
    }
  }

  /** An item carried by a later export does not matter. */
  lemma CarriedDoesNotMatter(d: Doc, rest: seq<Doc>, key: string)
    requires exists e :: e in rest && Carries(d, e)
    ensures Best(Flatten([d] + rest), key) == Best(Flatten(rest), key)
  {
    hide AtMost, IdKey, Item.Ranked, ItemsOf, Best, NotBefore;
    FlattenCons(d, rest);
    BestAppend(ItemsOf(d), Flatten(rest), key);
    BestTops(ItemsOf(d), key);
    BestTops(Flatten(rest), key);
    var mine, theirs := Best(ItemsOf(d), key), Best(Flatten(rest), key);
    if mine.Some? {
      var e :| e in rest && Carries(d, e);
      assert CarriedBy(mine.value, e);
      var other :| other in ItemsOf(e) && IdKey(other) == key && AtMost(mine.value.Ranked(), other.Ranked());
      FlattenHas(rest, other);
      RanksOrder(mine.value.Ranked(), other.Ranked(), theirs.value.Ranked());
    }
  }

  /** The best of all exports is the best of the last ones. */
  lemma {:induction false} BestOfLast(docs: seq<Doc>, key: string)
    requires Cumulative(docs)
    ensures Best(Flatten(LastOnly(docs)), key) == Best(Flatten(docs), key)
  {
    hide ItemsOf, Best, Flatten, Carries;
    if docs != [] {
      var d, rest := docs[0], docs[1..];
      assert docs == [d] + rest;
      BestOfLast(rest, key);
      if HasProject(rest, d.project) {
        var e :| e in rest && e.project == d.project;
        var j :| 0 <= j < |rest| && rest[j] == e;
        assert Carries(docs[0], docs[j + 1]);
        CarriedDoesNotMatter(d, rest, key);
      } else {
        FlattenCons(d, rest);
        FlattenCons(d, LastOnly(rest));
        BestAppend(ItemsOf(d), Flatten(rest), key);
        BestAppend(ItemsOf(d), Flatten(LastOnly(rest)), key);
      }
    }
  }

  lemma FlattenIdentified(docs: seq<Doc>)
    requires AllIdentified(docs)
    ensures forall item :: item in Flatten(docs) ==> item.Identified()
  {
    hide ItemsOf, Item.Identified;
    forall item | item in Flatten(docs) ensures item.Identified() {
      FlattenHas(docs, item);
    }
  }

  lemma LastOnlyIdentified(docs: seq<Doc>)
    requires AllIdentified(docs)
    ensures AllIdentified(LastOnly(docs))
  {
    hide ItemsOf, Item.Identified, LastOnly;
    forall d | d in LastOnly(docs) ensures d in docs {
      LastOnlyMeans(docs, d.project);
      LastOfHas(docs, d.project);
    }
  }

  /** The same rows are kept, under the same identities, with the same origin. */
  lemma SameObservations(docs: seq<Doc>)
    requires Cumulative(docs) && AllIdentified(docs)
    ensures Observations(LastOnly(docs)).at == Observations(docs).at
  {
    hide Cumulative, AllIdentified, Flatten, LastOnly, KeepAll, Best, Item.Identified, Item.AsEntry;
    FlattenIdentified(docs);
    LastOnlyIdentified(docs);
    FlattenIdentified(LastOnly(docs));
    var a, b := Observations(LastOnly(docs)).at, Observations(docs).at;
    forall key ensures (key in a <==> key in b) && (key in a ==> a[key] == b[key]) {
      KeptIsBest(Flatten(docs), key);
      KeptIsBest(Flatten(LastOnly(docs)), key);
      BestOfLast(docs, key);
    }
  }

  // ---------------------------------------------------------------- summaries

  /** A project's last export has rows if any of them has. */
  lemma RowsInLast(docs: seq<Doc>, d: Doc)
    requires Cumulative(docs) && d in docs && d.rows != []
    ensures var last := LastOf(docs, d.project);
      last.Some? && last.value.rows != []
  {
    hide LastOf;
    LastOfHas(docs, d.project);
    var last := LastOf(docs, d.project).value;
    if last != d {
      LastIsLater(docs, d);
      assert Carries(d, last);
      var item := ItemsOf(d)[0];
      assert item in ItemsOf(d) && CarriedBy(item, last);
      var other :| other in ItemsOf(last) && IdKey(other) == IdKey(item) && AtMost(item.Ranked(), other.Ranked());
    }
  }

  lemma {:induction false} LastIsLater(docs: seq<Doc>, d: Doc)
    requires Cumulative(docs) && d in docs && LastOf(docs, d.project).Some? && LastOf(docs, d.project).value != d
    ensures Carries(d, LastOf(docs, d.project).value)
  {
    hide Carries;
    var n := |docs| - 1;
    if docs[n].project == d.project {
      var i :| 0 <= i < |docs| && docs[i] == d;
      assert Carries(docs[i], docs[n]);
    } else {
      assert d in docs[..n];
      LastIsLater(docs[..n], d);
    }
  }

  lemma SameWithRows(docs: seq<Doc>)
    requires Cumulative(docs)
    ensures WithRows(LastOnly(docs)) == WithRows(docs)
  {
    hide Cumulative, LastOnly, LastOf;
    forall p ensures p in WithRows(LastOnly(docs)) <==> p in WithRows(docs) {
      LastOnlyMeans(docs, p);
      LastOfHas(docs, p);
      LastOfHas(LastOnly(docs), p);
      if d :| d in LastOnly(docs) && d.rows != [] && d.project == p {
        assert LastOf(docs, p) == Some(d);
        assert d in docs;
      }
      if d :| d in docs && d.rows != [] && d.project == p {
        RowsInLast(docs, d);
        assert LastOf(docs, p).value in LastOnly(docs);
      }
    }
  }

  ghost predicate InOrder(docs: seq<Doc>) {
    forall i, j :: 0 <= i < j < |docs| && docs[i].project == docs[j].project ==> NotBefore(docs[j].generated, docs[i].generated)
  }

  /** Of a project without rows, the last export's summary is the one kept. */
  lemma {:induction false} SummaryIsLast(docs: seq<Doc>, project: string)
    requires InOrder(docs) && forall d :: d in docs && d.project == project ==> d.rows == []
    ensures project in Summaries(docs).at <==> LastOf(docs, project).Some?
    ensures LastOf(docs, project).Some? ==>
      Summaries(docs).at[project] == Snapshot(LastOf(docs, project).value.summary, LastOf(docs, project).value.generated)
  {
    if docs != [] {
      hide NotBefore;
      var n := |docs| - 1;
      assert docs[n] in docs;
      SummaryIsLast(docs[..n], project);
      LastOfHas(docs[..n], project);
      if docs[n].project == project && LastOf(docs[..n], project).Some? {
        var before := LastOf(docs[..n], project).value;
        var i :| 0 <= i < n && docs[..n][i] == before;
        assert docs[i].project == docs[n].project;
      }
    }
  }

  lemma CumulativeInOrder(docs: seq<Doc>)
    requires Cumulative(docs)
    ensures InOrder(docs)
  {
    hide NotBefore, CarriedBy;
    forall i, j | 0 <= i < j < |docs| && docs[i].project == docs[j].project
      ensures NotBefore(docs[j].generated, docs[i].generated)
    {
      assert Carries(docs[i], docs[j]);
    }
  }

  lemma {:induction false} LastOnlyInOrder(docs: seq<Doc>)
    ensures InOrder(LastOnly(docs))
    ensures forall d :: d in LastOnly(docs) ==> d in docs
  {
    hide NotBefore;
    if docs != [] {
      LastOnlyInOrder(docs[1..]);
      var rest := LastOnly(docs[1..]);
      if !HasProject(docs[1..], docs[0].project) {
        forall k | 0 <= k < |rest| ensures rest[k].project != docs[0].project {
          assert rest[k] in rest && rest[k] in docs[1..];
        }
      }
    }
  }

  /** The summaries that count are the same. */
  lemma SameSummaries(docs: seq<Doc>, project: string)
    requires Cumulative(docs) && project !in WithRows(docs)
    ensures var a, b := LatestSummaries(LastOnly(docs)).at, LatestSummaries(docs).at;
      (project in a <==> project in b) && (project in a ==> a[project] == b[project])
  {
    hide Cumulative, LastOnly, LastOf, Summaries, InOrder;
    CumulativeInOrder(docs);
    LastOnlyInOrder(docs);
    LastOnlyMeans(docs, project);
    forall d | d in docs && d.project == project ensures d.rows == [] {
      assert d.rows != [] ==> d.project in WithRows(docs);
    }
    SummaryIsLast(docs, project);
    SummaryIsLast(LastOnly(docs), project);
  }

  // --------------------------------------------------------------------- sums

  function NonZero(ks: seq<string>, f: string -> int): (r: seq<string>)
    ensures forall k :: k in r <==> k in ks && f(k) != 0
  {
    if ks == [] then []
    else
      assert forall k :: k in ks <==> k in ks[..|ks| - 1] || k == ks[|ks| - 1];
      if f(ks[|ks| - 1]) != 0 then NonZero(ks[..|ks| - 1], f) + [ks[|ks| - 1]]
      else NonZero(ks[..|ks| - 1], f)
  }

  lemma {:induction false} SumNonZero(ks: seq<string>, f: string -> int)
    requires Distinct(ks)
    ensures Sum(NonZero(ks, f), f) == Sum(ks, f) && Distinct(NonZero(ks, f))
  {
    if ks != [] {
      var n := |ks| - 1;
      SumNonZero(ks[..n], f);
      assert NonZero(ks[..n], f) + [ks[n]] != [] && (NonZero(ks[..n], f) + [ks[n]])[..|NonZero(ks[..n], f)|] == NonZero(ks[..n], f);
      assert forall k :: k in NonZero(ks[..n], f) ==> k in ks[..n];
    }
  }

  /** Sums of functions that agree, over keys that agree where they are not zero. */
  lemma SumsAgree(ks: seq<string>, ls: seq<string>, f: string -> int, g: string -> int)
    requires Distinct(ks) && Distinct(ls)
    requires forall k :: f(k) == g(k) && (f(k) != 0 ==> k in ks && k in ls)
    ensures Sum(ks, f) == Sum(ls, g)
  {
    SumNonZero(ks, f);
    SumNonZero(ls, f);
    SumPermuted(NonZero(ks, f), NonZero(ls, f), f);
    SumSame(ls, f, g);
  }

  // ------------------------------------------------------------------ agreement

  /** For cumulative exports whose rows have ids, the observation counts and every
      label of every bucket are those of an index of the last exports alone. */
  lemma AgreesWithLast(docs: seq<Doc>, tag: string)
    requires Cumulative(docs) && AllIdentified(docs)
    ensures var a, b := Indexed(docs), Indexed(LastOnly(docs));
      && a.uniqueCount == b.uniqueCount && a.observationCount == b.observationCount
      && Get(a.byCategory, tag) == Get(b.byCategory, tag)
      && Get(a.byOrigin, tag) == Get(b.byOrigin, tag)
      && Get(a.bySeverity, tag) == Get(b.bySeverity, tag)
  {
    hide Cumulative, AllIdentified, LastOnly, Observations, LatestSummaries, WithRows, Bucket, Sum, Get, Frameworks, Projects;
    var last := LastOnly(docs);
    SameObservations(docs);
    SameWithRows(docs);
    SameSize(Observations(docs), Observations(last));
    TotalsAgree(docs);
    FacetsAgree(docs, Category, tag);
    FacetsAgree(docs, Origin, tag);
    FacetsAgree(docs, Severity, tag);
  }

  lemma SameSize(a: Dict<Entry>, b: Dict<Entry>)
    requires a.Valid() && b.Valid() && a.at == b.at
    ensures |a.order| == |b.order|
  {
    SumPermuted(a.order, b.order, k => 0);
  }

  lemma TotalsAgree(docs: seq<Doc>)
    requires Cumulative(docs)
    ensures var a, b, skip := LatestSummaries(docs), LatestSummaries(LastOnly(docs)), WithRows(docs);
      Sum(a.order, SummaryTotal(a.at, skip)) == Sum(b.order, SummaryTotal(b.at, skip))
  {
    hide Cumulative, LastOnly, LatestSummaries, WithRows, Sum;
    var a, b, skip := LatestSummaries(docs), LatestSummaries(LastOnly(docs)), WithRows(docs);
    var f, g := SummaryTotal(a.at, skip), SummaryTotal(b.at, skip);
    forall p ensures f(p) == g(p) && (f(p) != 0 ==> p in a.order && p in b.order) {
      if p !in skip { SameSummaries(docs, p); }
    }
    SumsAgree(a.order, b.order, f, g);
  }

  lemma FacetsAgree(docs: seq<Doc>, facet: Facet, tag: string)
    requires Cumulative(docs) && AllIdentified(docs)
    ensures var last, skip := LastOnly(docs), WithRows(docs);
      Get(Bucket(Observations(docs), LatestSummaries(docs), skip, facet), tag) ==
      Get(Bucket(Observations(last), LatestSummaries(last), skip, facet), tag)
  {
    hide Cumulative, AllIdentified, LastOnly, Observations, LatestSummaries, WithRows, Bucket, Sum, Get, FacetOf, CountsOf, CountFor;
    var last, skip := LastOnly(docs), WithRows(docs);
    SameObservations(docs);
    var x, y := Observations(docs), Observations(last);
    var a, b := LatestSummaries(docs), LatestSummaries(last);
    BucketConserves(x, a, skip, facet, tag);
    BucketConserves(y, b, skip, facet, tag);
    SumsAgree(x.order, y.order, RowHas(x.at, facet, tag), RowHas(y.at, facet, tag));
    var f, g := SummaryHas(a.at, skip, facet, tag), SummaryHas(b.at, skip, facet, tag);
    forall p ensures f(p) == g(p) && (f(p) != 0 ==> p in a.order && p in b.order) {
      if p !in skip { SameSummaries(docs, p); }
    }
    SumsAgree(a.order, b.order, f, g);
  }
}
