/** The learning index: exports reduced to the latest row of each observation, and
    the counters over them. */
module Aggregate {
  import opened Text
  import Semver
  import Sorting

  // ------------------------------------------------------- ordered dictionaries

  /** A dictionary with its keys in the order of their first insertion. */
  datatype Dict<V> = Dict(order: seq<string>, at: map<string, V>) {
    ghost predicate Valid() {
      && (forall k :: k in order <==> k in at)
      && (forall i, j :: 0 <= i < j < |order| ==> order[i] != order[j])
    }

    function Put(k: string, v: V): Dict<V> {
      Dict(if k in at then order else order + [k], at[k := v])
    }
  }

  lemma PutKeepsValid<V>(d: Dict<V>, k: string, v: V)
    requires d.Valid()
    ensures d.Put(k, v).Valid()
  {
    if k !in d.at {
      assert forall i :: 0 <= i < |d.order| ==> d.order[i] in d.order;
    }
  }

  function Sum(ks: seq<string>, f: string -> int): int {
    if ks == [] then 0 else Sum(ks[..|ks| - 1], f) + f(ks[|ks| - 1])
  }

  ghost predicate Distinct(ks: seq<string>) {
    forall i, j :: 0 <= i < j < |ks| ==> ks[i] != ks[j]
  }

  lemma {:induction false} SumSame(ks: seq<string>, f: string -> int, g: string -> int)
    requires forall k :: k in ks ==> f(k) == g(k)
    ensures Sum(ks, f) == Sum(ks, g)
  {
    if ks != [] {
      SumSame(ks[..|ks| - 1], f, g);
      assert ks[|ks| - 1] in ks;
    }
  }

  /** Taking one member out of the sum. */
  lemma {:induction false} SumTake(ks: seq<string>, i: nat, f: string -> int)
    requires i < |ks|
    ensures Sum(ks, f) == f(ks[i]) + Sum(ks[..i] + ks[i + 1..], f)
  {
    var n := |ks| - 1;
    var rest := ks[..i] + ks[i + 1..];
    if i == n {
      assert rest == ks[..n];
    } else {
      SumTake(ks[..n], i, f);
      assert rest[..n - 1] == ks[..n][..i] + ks[..n][i + 1..];
      assert rest[n - 1] == ks[n];
    }
  }

  /** A sum over distinct keys depends on which they are, not on their order. */
  lemma {:induction false} SumPermuted(ks: seq<string>, ls: seq<string>, f: string -> int)
    requires Distinct(ks) && Distinct(ls) && forall k :: k in ks <==> k in ls
    ensures Sum(ks, f) == Sum(ls, f) && |ks| == |ls|
  {
    if ks == [] {
      EmptyOrMember(ls);
    } else {
      var n := |ks| - 1;
      assert ks[n] in ks;
      var i :| 0 <= i < |ls| && ls[i] == ks[n];
      SumTake(ls, i, f);
      var rest := ls[..i] + ls[i + 1..];
      MembersBut(ks, n);
      MembersBut(ls, i);
      RestDistinct(ls, i);
      forall k ensures k in ks[..n] <==> k in rest {
        assert ks[..n] + ks[n + 1..] == ks[..n];
        assert k in ks[..n] + ks[n + 1..] <==> k in ks && k != ks[n];
        assert k in rest <==> k in ls && k != ls[i];
      }
      SumPermuted(ks[..n], rest, f);
    }
  }

  lemma MembersBut(ks: seq<string>, i: nat)
    requires Distinct(ks) && i < |ks|
    ensures forall k :: k in ks[..i] + ks[i + 1..] <==> k in ks && k != ks[i]
  {
    assert ks == ks[..i] + [ks[i]] + ks[i + 1..];
  }

  lemma RestDistinct(ks: seq<string>, i: nat)
    requires Distinct(ks) && i < |ks|
    ensures Distinct(ks[..i] + ks[i + 1..])
  {
  }

  // ---------------------------------------------------------------- counters

  type Counter = Dict<int>

  const ZERO: Counter := Dict([], map[])

  function Get(c: Counter, k: string): int { if k in c.at then c.at[k] else 0 }

  function Label(k: string): string { if k == "" then "unknown" else k }

  /** An absent field counts as "unknown". */
  predicate Says(field: string, tag: string) { if field == "" then tag == "unknown" else tag == field }

  function Bump(c: Counter, k: string, amount: int): Counter {
    c.Put(Label(k), Get(c, Label(k)) + amount)
  }

  function Total(c: Counter): int { Sum(c.order, Getter(c)) }

  function Getter(c: Counter): string -> int { k => Get(c, k) }

  lemma TotalOfOthers(c: Counter, d: Counter, i: nat)
    requires c.Valid() && i < |c.order| && d.order == c.order
    requires forall j :: j != c.order[i] ==> Get(d, j) == Get(c, j)
    ensures Total(d) == Total(c) + Get(d, c.order[i]) - Get(c, c.order[i])
  {
    var f, g, rest := Getter(c), Getter(d), c.order[..i] + c.order[i + 1..];
    SumTake(c.order, i, f);
    SumTake(c.order, i, g);
    forall j | j in rest ensures f(j) == g(j) {
      OtherKey(c.order, i, j);
    }
    SumSame(rest, f, g);
  }

  lemma OtherKey(ks: seq<string>, i: nat, k: string)
    requires Distinct(ks) && i < |ks| && k in ks[..i] + ks[i + 1..]
    ensures k != ks[i]
  {
  }

  lemma TotalOfMore(c: Counter, d: Counter, key: string)
    requires d.order == c.order + [key] && forall j :: j in c.order ==> Get(d, j) == Get(c, j)
    ensures Total(d) == Total(c) + Get(d, key)
  {
    assert d.order[..|c.order|] == c.order;
    SumSame(c.order, Getter(c), Getter(d));
  }

  /** Bumping adds the amount to one label and to the total. */
  lemma BumpAdds(c: Counter, k: string, amount: int)
    requires c.Valid()
    ensures Bump(c, k, amount).Valid() && Total(Bump(c, k, amount)) == Total(c) + amount
    ensures forall l :: Get(Bump(c, k, amount), l) == Get(c, l) + if l == Label(k) then amount else 0
  {
    hide Total;
    var key := Label(k);
    var d := Bump(c, k, amount);
    PutKeepsValid(c, key, Get(c, key) + amount);
    if key in c.at {
      var i :| 0 <= i < |c.order| && c.order[i] == key;
      TotalOfOthers(c, d, i);
    } else {
      TotalOfMore(c, d, key);
    }
  }

  // -------------------------------------------------------------------- rows

  /** An observation. Absent text is empty; the revision is what `int` makes of it. */
  datatype Row = Row(
    id: string, reference: string, otherId: string,
    revision: int,
    lastRecorded: string, recorded: string, ended: string,
    category: string, origin: string, severity: string)

  datatype Meta = Meta(exportId: string, project: string, framework: string)

  datatype Rank = Rank(revision: int, stamp: string)

  datatype Entry = Entry(row: Row, meta: Meta, rank: Rank)

  /** A row as it is scanned: with the export it comes from. */
  datatype Item = Item(row: Row, meta: Meta, generated: string) {
    function Id(): string { Or(row.id, Or(row.reference, row.otherId)) }
    predicate Identified() { Id() != "" }

    function Ranked(): Rank {
      Rank(row.revision, Or(row.lastRecorded, Or(row.recorded, Or(row.ended, generated))))
    }

    function AsEntry(): Entry { Entry(row, meta, Ranked()) }
  }

  function Or(a: string, b: string): string { if a != "" then a else b }

  /** Ranks compare as pairs: by revision, then by stamp. */
  predicate AtMost(a: Rank, b: Rank) {
    a.revision < b.revision || (a.revision == b.revision && (a.stamp == b.stamp || Sorting.Below(a.stamp, b.stamp)))
  }

  lemma RanksOrder(a: Rank, b: Rank, c: Rank)
    ensures AtMost(a, a) && (AtMost(a, b) || AtMost(b, a))
    ensures AtMost(a, b) && AtMost(b, c) ==> AtMost(a, c)
  {
    Sorting.BelowOrders(a.stamp, b.stamp, c.stamp);
    hide Sorting.Below;
  }

  function Decimal(n: nat): (r: string)
    ensures r != "" && ':' !in r
    ensures forall i :: 0 <= i < |r| ==> Semver.IsDigit(r[i])
  {
    var last := ['0' + (n % 10) as char];
    if n < 10 then last else Decimal(n / 10) + last
  }

  /** The identity a row is kept under; one without an id gets the number of
      observations kept so far. */
  function KeyOf(item: Item, kept: nat): string {
    if item.Identified() then IdKey(item) else AnonymousKey(item, kept)
  }

  function IdKey(item: Item): string { item.meta.project + ":" + item.Id() }

  function AnonymousKey(item: Item, kept: nat): string {
    item.meta.project + ":anon:" + item.meta.exportId + ":" + Decimal(kept)
  }

  /** `_keep_latest`: a row replaces one of at most its rank. */
  function Keep(d: Dict<Entry>, item: Item): Dict<Entry> {
    var key, e := KeyOf(item, |d.order|), item.AsEntry();
    if key !in d.at || AtMost(d.at[key].rank, e.rank) then d.Put(key, e) else d
  }

  const NOTHING: Dict<Entry> := Dict([], map[])

  function KeepAll(items: seq<Item>): Dict<Entry> {
    if items == [] then NOTHING else Keep(KeepAll(items[..|items| - 1]), items[|items| - 1])
  }

  lemma {:induction false} KeepAllValid(items: seq<Item>)
    ensures KeepAll(items).Valid()
  {
    if items != [] {
      hide KeyOf, AtMost;
      var n := |items| - 1;
      KeepAllValid(items[..n]);
      var d, item := KeepAll(items[..n]), items[n];
      PutKeepsValid(d, KeyOf(item, |d.order|), item.AsEntry());
    }
  }

  // ------------------------------------------------------------ which row is kept

  /** The identity row `j` was scanned under. */
  function KeyAt(items: seq<Item>, j: nat): string
    requires j < |items|
  {
    KeyOf(items[j], |KeepAll(items[..j]).order|)
  }

  /** Row `j` is the last of the highest-ranked rows scanned under its identity. */
  ghost predicate Latest(items: seq<Item>, key: string, j: nat) {
    && j < |items| && KeyAt(items, j) == key
    && (forall i :: 0 <= i < |items| && KeyAt(items, i) == key ==> AtMost(items[i].Ranked(), items[j].Ranked()))
    && (forall i :: j < i < |items| && KeyAt(items, i) == key ==> !AtMost(items[j].Ranked(), items[i].Ranked()))
  }

  lemma KeyAtPrefix(items: seq<Item>, n: nat, j: nat)
    requires j < n <= |items|
    ensures KeyAt(items[..n], j) == KeyAt(items, j)
  {
    assert items[..n][..j] == items[..j];
  }

  lemma KeepStep(items: seq<Item>)
    requires items != []
    ensures var n := |items| - 1;
      var d, key, e := KeepAll(items[..n]), KeyAt(items, n), items[n].AsEntry();
      && (key !in d.at || AtMost(d.at[key].rank, e.rank) ==> KeepAll(items).at == d.at[key := e])
      && (key in d.at && !AtMost(d.at[key].rank, e.rank) ==> KeepAll(items).at == d.at)
  {
    hide AtMost, KeyOf;
  }

  lemma KeysBefore(items: seq<Item>)
    requires items != []
    ensures forall j: nat :: j < |items| - 1 ==> KeyAt(items[..|items| - 1], j) == KeyAt(items, j)
  {
    forall j: nat | j < |items| - 1 ensures KeyAt(items[..|items| - 1], j) == KeyAt(items, j) {
      KeyAtPrefix(items, |items| - 1, j);
    }
  }

  /** The dictionary holds the latest row of this identity, if there is one. */
  ghost predicate Holds(items: seq<Item>, d: map<string, Entry>, key: string) {
    if key in d then exists j: nat :: Latest(items, key, j) && d[key] == items[j].AsEntry()
    else forall j: nat :: j < |items| ==> KeyAt(items, j) != key
  }

  /** An identity is kept exactly if some row was scanned under it, and the row
      kept has the highest rank, the last one scanned winning ties. */
  lemma {:induction false} KeptIsLatest(items: seq<Item>, key: string)
    ensures Holds(items, KeepAll(items).at, key)
  {
    hide KeyAt, AtMost, Latest;
    if items != [] {
      KeptIsLatest(items[..|items| - 1], key);
      KeysBefore(items);
      KeepStep(items);
      HoldsStep(items, KeepAll(items[..|items| - 1]).at, KeepAll(items).at, key);
    }
  }

  lemma HoldsStep(items: seq<Item>, before: map<string, Entry>, now: map<string, Entry>, key: string)
    requires items != [] && Holds(items[..|items| - 1], before, key)
    requires forall j: nat :: j < |items| - 1 ==> KeyAt(items[..|items| - 1], j) == KeyAt(items, j)
    requires var n := |items| - 1;
      var k, e := KeyAt(items, n), items[n].AsEntry();
      now == if k !in before || AtMost(before[k].rank, e.rank) then before[k := e] else before
    ensures Holds(items, now, key)
  {
    hide KeyAt, AtMost;
    var n := |items| - 1;
    var last := items[n].Ranked();
    RanksOrder(last, last, last);
    if key in before {
      var j: nat :| Latest(items[..n], key, j) && before[key] == items[..n][j].AsEntry();
      if KeyAt(items, n) == key && AtMost(items[j].Ranked(), last) {
        LastWins(items, key, j);
      } else {
        RanksOrder(items[j].Ranked(), last, last);
        StillLatest(items, key, j);
      }
    } else if KeyAt(items, n) == key {
      assert Latest(items, key, n);
    }
  }

  lemma LastWins(items: seq<Item>, key: string, j: nat)
    requires items != [] && Latest(items[..|items| - 1], key, j)
    requires forall i: nat :: i < |items| - 1 ==> KeyAt(items[..|items| - 1], i) == KeyAt(items, i)
    requires KeyAt(items, |items| - 1) == key && AtMost(items[j].Ranked(), items[|items| - 1].Ranked())
    ensures Latest(items, key, |items| - 1)
  {
    hide KeyAt, AtMost, Item.Ranked;
    var n := |items| - 1;
    var last := items[n].Ranked();
    RanksOrder(last, last, last);
    forall i | 0 <= i < |items| && KeyAt(items, i) == key ensures AtMost(items[i].Ranked(), last) {
      if i < n {
        assert items[..n][i] == items[i] && KeyAt(items[..n], i) == key;
        RanksOrder(items[i].Ranked(), items[j].Ranked(), last);
      }
    }
  }

  lemma StillLatest(items: seq<Item>, key: string, j: nat)
    requires items != [] && Latest(items[..|items| - 1], key, j)
    requires forall i: nat :: i < |items| - 1 ==> KeyAt(items[..|items| - 1], i) == KeyAt(items, i)
    requires var last := items[|items| - 1].Ranked();
      KeyAt(items, |items| - 1) == key ==> AtMost(last, items[j].Ranked()) && !AtMost(items[j].Ranked(), last)
    ensures Latest(items, key, j)
  {
    hide KeyAt, AtMost, Item.Ranked;
    var n := |items| - 1;
    assert forall i: nat :: i < n ==> items[..n][i] == items[i];
  }

  // ------------------------------------------------- told from the rows' fields

  /** The first time of a row that is there, else that of its export. */
  function Stamp(item: Item): string {
    var r := item.row;
    if r.lastRecorded != "" then r.lastRecorded
    else if r.recorded != "" then r.recorded
    else if r.ended != "" then r.ended
    else item.generated
  }

  /** `a` has a smaller revision, or the same one and no later stamp. */
  predicate NotNewer(a: Item, b: Item) {
    a.row.revision < b.row.revision
    || (a.row.revision == b.row.revision && !Sorting.Precedes(Stamp(b), Stamp(a)))
  }

  /** Row `j` is the newest of its identity, and of several such the last scanned. */
  ghost predicate Newest(items: seq<Item>, key: string, j: nat) {
    && j < |items| && KeyAt(items, j) == key
    && (forall i :: 0 <= i < |items| && KeyAt(items, i) == key ==> NotNewer(items[i], items[j]))
    && (forall i :: j < i < |items| && KeyAt(items, i) == key ==>
          items[i].row.revision != items[j].row.revision || Stamp(items[i]) != Stamp(items[j]))
  }

  lemma RankIsNewness(a: Item, b: Item)
    ensures AtMost(a.Ranked(), b.Ranked()) <==> NotNewer(a, b)
    ensures AtMost(b.Ranked(), a.Ranked()) && NotNewer(a, b) <==>
      a.row.revision == b.row.revision && Stamp(a) == Stamp(b)
  {
    Sorting.BelowIsPrecedes(Stamp(a), Stamp(b));
    Sorting.BelowIsPrecedes(Stamp(b), Stamp(a));
    Sorting.BelowOrders(Stamp(a), Stamp(b), Stamp(a));
    hide Sorting.Below, Sorting.Precedes;
  }

  lemma NewestIsLatest(items: seq<Item>, key: string, j: nat)
    ensures Newest(items, key, j) <==> Latest(items, key, j)
  {
    hide KeyAt, AtMost, NotNewer, Item.Ranked, Stamp;
    if j < |items| {
      forall i: nat | i < |items|
        ensures AtMost(items[i].Ranked(), items[j].Ranked()) <==> NotNewer(items[i], items[j])
        ensures AtMost(items[j].Ranked(), items[i].Ranked()) && NotNewer(items[i], items[j]) <==>
          items[i].row.revision == items[j].row.revision && Stamp(items[i]) == Stamp(items[j])
      {
        RankIsNewness(items[i], items[j]);
      }
    }
  }

  /** For every identity that occurs the newest row is kept, with its export, and
      there is just one newest. */
  lemma KeptIsNewest(items: seq<Item>, key: string)
    ensures var d := KeepAll(items).at;
      if key in d then exists j: nat :: Newest(items, key, j) && d[key].row == items[j].row && d[key].meta == items[j].meta
      else forall j: nat :: j < |items| ==> KeyAt(items, j) != key
    ensures forall i: nat, j: nat :: Newest(items, key, i) && Newest(items, key, j) ==> i == j
  {
    hide KeyAt, AtMost, Newest, Latest, KeepAll;
    KeptIsLatest(items, key);
    forall j: nat ensures Newest(items, key, j) <==> Latest(items, key, j) { NewestIsLatest(items, key, j); }
    forall i: nat, j: nat | Newest(items, key, i) && Newest(items, key, j) ensures i == j {
      OneLatest(items, key, i, j);
    }
  }

  lemma OneLatest(items: seq<Item>, key: string, i: nat, j: nat)
    requires Latest(items, key, i) && Latest(items, key, j)
    ensures i == j
  {
    hide KeyAt, AtMost, Item.Ranked;
  }

  /** The identities that occur. */
  function Identities(items: seq<Item>): set<string> {
    set j | 0 <= j < |items| :: KeyAt(items, j)
  }

  /** The identity of a row, told from its fields: project and first id, or the
      number of identities before it. */
  lemma IdentityIs(items: seq<Item>, j: nat)
    requires j < |items|
    ensures var r, m, key := items[j].row, items[j].meta, KeyAt(items, j);
      && (r.id != "" ==> key == m.project + ":" + r.id)
      && (r.id == "" && r.reference != "" ==> key == m.project + ":" + r.reference)
      && (r.id == "" && r.reference == "" && r.otherId != "" ==> key == m.project + ":" + r.otherId)
      && (r.id == "" && r.reference == "" && r.otherId == "" ==>
            key == m.project + ":anon:" + m.exportId + ":" + Decimal(|Identities(items[..j])|))
  {
    IdentitiesKept(items[..j]);
    hide KeepAll, Decimal;
  }

  lemma IdentitiesKept(items: seq<Item>)
    ensures KeepAll(items).at.Keys == Identities(items) && |KeepAll(items).order| == |Identities(items)|
  {
    hide KeyAt, Newest, KeepAll;
    var d := KeepAll(items);
    forall key ensures key in d.at.Keys <==> key in Identities(items) {
      KeptIsNewest(items, key);
      if key in d.at {
        var j: nat :| Newest(items, key, j);
        NewestOccurs(items, key, j);
      }
    }
    KeepAllValid(items);
    OrderCounts(d);
  }

  lemma NewestOccurs(items: seq<Item>, key: string, j: nat)
    requires Newest(items, key, j)
    ensures j < |items| && KeyAt(items, j) == key
  {
  }

  lemma OrderCounts<V>(d: Dict<V>)
    requires d.Valid()
    ensures |d.order| == |d.at.Keys|
  {
    ListCounts(d.order);
    assert d.at.Keys == set k | k in d.order;
  }

  lemma {:induction false} ListCounts(ks: seq<string>)
    requires Distinct(ks)
    ensures |set k | k in ks| == |ks|
  {
    if ks == [] {
      assert (set k | k in ks) == {};
    } else {
      var n := |ks| - 1;
      ListCounts(ks[..n]);
      assert (set k | k in ks) == (set k | k in ks[..n]) + {ks[n]} by { assert ks == ks[..n] + [ks[n]]; }
    }
  }

  // ---------------------------------------------------------- anonymous rows

  lemma {:induction false} DecimalNumber(n: nat)
    ensures Semver.Number(Decimal(n)) == n
  {
    var last := ['0' + (n % 10) as char];
    assert last[..0] == "" && Semver.Number("") == 0;
    if n >= 10 {
      DecimalNumber(n / 10);
      var r := Decimal(n);
      assert r[..|r| - 1] == Decimal(n / 10) && r[|r| - 1] == last[0];
    } else {
      assert Semver.Number(last) == n;
    }
  }

  /** What follows the last colon of a text is determined by the text. */
  lemma LastColon(a: string, x: string, b: string, y: string)
    requires a + ":" + x == b + ":" + y && ':' !in x && ':' !in y
    ensures x == y
  {
    var s := a + ":" + x;
    assert s[|a|] == ':' && s[|b|] == ':';
    assert forall k :: |a| < k < |s| ==> s[k] == x[k - |a| - 1] && s[k] in x;
    assert forall k :: |b| < k < |s| ==> s[k] == y[k - |b| - 1] && s[k] in y;
    assert s[|a| + 1..] == x && s[|b| + 1..] == y;
  }

  lemma AnonymousKeysDiffer(a: Item, b: Item, m: nat, n: nat)
    requires m != n
    ensures AnonymousKey(a, m) != AnonymousKey(b, n)
  {
    DecimalNumber(m);
    DecimalNumber(n);
    hide Decimal, Semver.Number;
    if AnonymousKey(a, m) == AnonymousKey(b, n) {
      LastColon(a.meta.project + ":anon:" + a.meta.exportId, Decimal(m), b.meta.project + ":anon:" + b.meta.exportId, Decimal(n));
    }
  }

  /** Row `j` is the first under its identity. */
  predicate Fresh(items: seq<Item>, j: nat)
    requires j < |items|
  {
    KeyAt(items, j) !in KeepAll(items[..j]).at
  }

  lemma {:induction false} KeptGrows(items: seq<Item>, i: nat, j: nat)
    requires i <= j <= |items|
    ensures |KeepAll(items[..i]).order| <= |KeepAll(items[..j]).order|
    ensures forall k :: k in KeepAll(items[..i]).at ==> k in KeepAll(items[..j]).at
    decreases j
  {
    hide KeyOf, AtMost;
    if i < j {
      assert items[..j][..j - 1] == items[..j - 1];
      KeptGrows(items, i, j - 1);
    }
  }

  lemma ScannedIsKept(items: seq<Item>, i: nat)
    requires i < |items|
    ensures KeyAt(items, i) in KeepAll(items[..i + 1]).at
    ensures Fresh(items, i) ==> |KeepAll(items[..i + 1]).order| == |KeepAll(items[..i]).order| + 1
  {
    hide KeyOf, AtMost;
    assert items[..i + 1][..i] == items[..i];
  }

  lemma StaleHasEarlier(items: seq<Item>, j: nat)
    requires j < |items| && !Fresh(items, j)
    ensures exists i: nat :: i < j && KeyAt(items, i) == KeyAt(items, j)
  {
    hide KeyOf, AtMost;
    var key := KeyAt(items, j);
    KeptIsLatest(items[..j], key);
    var i: nat :| Latest(items[..j], key, i);
    KeyAtPrefix(items, j, i);
  }

  function IdKeys(items: seq<Item>): set<string> {
    set item | item in items && item.Identified() :: IdKey(item)
  }

  function Nameless(items: seq<Item>): nat {
    if items == [] then 0
    else Nameless(items[..|items| - 1]) + if items[|items| - 1].Identified() then 0 else 1
  }

  /** The number an anonymous row behind `items` has when none of them shares an
      identity with an anonymous one: a count over the rows alone. */
  function Number(items: seq<Item>): nat { |IdKeys(items)| + Nameless(items) }

  /** The identity row `j` has then. */
  function Due(items: seq<Item>, j: nat): string
    requires j < |items|
  {
    KeyOf(items[j], Number(items[..j]))
  }

  /** No identified row has the identity that is due to an anonymous one, before it
      or after it. */
  ghost predicate Unclaimed(items: seq<Item>, n: nat)
    requires n <= |items|
  {
    forall i: nat, j: nat :: i < n && j < n && items[i].Identified() && !items[j].Identified() ==> Due(items, i) != Due(items, j)
  }

  /** Anonymous rows among the first `n` share their identity with none of these. */
  ghost predicate Alone(items: seq<Item>, n: nat)
    requires n <= |items|
  {
    forall i: nat, j: nat :: i < n && j < n && i != j && !items[j].Identified() ==> KeyAt(items, i) != KeyAt(items, j)
  }

  /** Every anonymous row has an identity of its own exactly when no identified row
      has the one due to it. */
  lemma AnonymousAloneIff(items: seq<Item>)
    ensures Alone(items, |items|) <==> Unclaimed(items, |items|)
  {
    hide KeyAt, Due;
    if Alone(items, |items|) {
      forall i: nat, j: nat | i < |items| && j < |items| && items[i].Identified() && !items[j].Identified()
        ensures Due(items, i) != Due(items, j)
      {
        AloneIsDue(items, i);
        AloneIsDue(items, j);
      }
    }
    if Unclaimed(items, |items|) { UnclaimedIsAlone(items, |items|); }
  }

  lemma IdKeysMore(items: seq<Item>, n: nat)
    requires n < |items|
    ensures IdKeys(items[..n + 1]) == IdKeys(items[..n]) + if items[n].Identified() then {IdKey(items[n])} else {}
    ensures Nameless(items[..n + 1]) == Nameless(items[..n]) + if items[n].Identified() then 0 else 1
    ensures Number(items[..n + 1]) ==
      Number(items[..n]) + if items[n].Identified() && IdKey(items[n]) in IdKeys(items[..n]) then 0 else 1
  {
    hide IdKey, Item.Identified;
    assert items[..n + 1][..n] == items[..n];
    assert items[..n + 1] == items[..n] + [items[n]];
    var ids, key := IdKeys(items[..n]), IdKey(items[n]);
    assert ids + {} == ids;
    if key in ids { assert ids + {key} == ids; } else { assert |ids + {key}| == |ids| + 1; }
  }

  /** Which scan step keeps a new identity. */
  lemma KeptMore(items: seq<Item>, n: nat)
    requires n < |items|
    ensures var before := KeepAll(items[..n]);
      |KeepAll(items[..n + 1]).order| == |before.order| + if KeyAt(items, n) in before.at then 0 else 1
    ensures KeyAt(items, n) in KeepAll(items[..n]).at <==> exists i: nat :: i < n && KeyAt(items, i) == KeyAt(items, n)
  {
    hide KeyOf, AtMost;
    assert items[..n + 1][..n] == items[..n];
    if KeyAt(items, n) in KeepAll(items[..n]).at { StaleHasEarlier(items, n); }
    forall i: nat | i < n ensures KeyAt(items, i) in KeepAll(items[..n]).at {
      ScannedIsKept(items, i);
      KeptGrows(items, i + 1, n);
    }
  }

  /** As long as anonymous rows are alone, the number kept is the count. */
  lemma {:induction false} AloneCounts(items: seq<Item>, n: nat)
    requires n <= |items| && Alone(items, n)
    ensures |KeepAll(items[..n]).order| == Number(items[..n])
  {
    hide KeepAll, IdKey, AnonymousKey, Item.Identified, Number;
    if n == 0 {
      assert items[..0] == [];
      NumberOfNone();
    } else {
      AloneCounts(items, n - 1);
      IdKeysMore(items, n - 1);
      KeptMore(items, n - 1);
      hide KeyAt;
      if items[n - 1].Identified() { IdentifiedKept(items, n - 1); }
    }
  }

  lemma NumberOfNone()
    ensures Number([]) == 0 && KeepAll([]).order == []
  {
    assert IdKeys([]) == {};
  }

  /** The identity of an identified row is kept already if an identified row had it. */
  lemma IdentifiedKept(items: seq<Item>, n: nat)
    requires n < |items| && items[n].Identified() && Alone(items, n + 1)
    ensures (exists i: nat :: i < n && KeyAt(items, i) == KeyAt(items, n)) <==> IdKey(items[n]) in IdKeys(items[..n])
  {
    hide KeepAll, IdKey, AnonymousKey, Item.Identified;
    if i: nat :| i < n && KeyAt(items, i) == KeyAt(items, n) {
      assert items[i].Identified();
      assert items[i] in items[..n];
    }
    if IdKey(items[n]) in IdKeys(items[..n]) {
      var item :| item in items[..n] && item.Identified() && IdKey(item) == IdKey(items[n]);
      var i :| 0 <= i < n && items[i] == item;
      assert KeyAt(items, i) == IdKey(item) == KeyAt(items, n);
    }
  }

  lemma AloneIsDue(items: seq<Item>, j: nat)
    requires j < |items| && Alone(items, |items|)
    ensures KeyAt(items, j) == Due(items, j)
  {
    hide KeepAll, KeyOf, Number;
    AloneCounts(items, j);
  }

  lemma {:induction false} UnclaimedIsAlone(items: seq<Item>, n: nat)
    requires n <= |items| && Unclaimed(items, n)
    ensures Alone(items, n)
    ensures forall j: nat :: j < n ==> KeyAt(items, j) == Due(items, j)
  {
    hide KeepAll, IdKey, AnonymousKey, Item.Identified, Number, KeyAt, Due;
    if n > 0 {
      var m := n - 1;
      UnclaimedIsAlone(items, m);
      AloneCounts(items, m);
      IsDue(items, m);
      forall i: nat | i < m && (!items[i].Identified() || !items[m].Identified()) ensures KeyAt(items, i) != KeyAt(items, m) {
        if items[i].Identified() == items[m].Identified() {
          NumberGrows(items, i, m);
          DueDiffer(items, i, m);
        }
      }
    }
  }

  lemma IsDue(items: seq<Item>, m: nat)
    requires m < |items| && |KeepAll(items[..m]).order| == Number(items[..m])
    ensures KeyAt(items, m) == Due(items, m)
  {
    hide KeepAll, KeyOf, Number;
  }

  lemma DueDiffer(items: seq<Item>, i: nat, j: nat)
    requires i < |items| && j < |items| && !items[i].Identified() && !items[j].Identified()
    requires Number(items[..i]) != Number(items[..j])
    ensures Due(items, i) != Due(items, j)
  {
    hide AnonymousKey, Number, Item.Identified;
    AnonymousKeysDiffer(items[i], items[j], Number(items[..i]), Number(items[..j]));
  }

  lemma {:induction false} NumberGrows(items: seq<Item>, i: nat, j: nat)
    requires i < j <= |items| && !items[i].Identified()
    ensures Number(items[..i]) < Number(items[..j])
    decreases j
  {
    hide Number, IdKey, Item.Identified;
    IdKeysMore(items, j - 1);
    if i < j - 1 { NumberGrows(items, i, j - 1); }
  }

  predicate StartsAnon(id: string) { "anon:" <= id }

  /** So it is when no project has a colon and no id starts like an anonymous one. */
  lemma PlainNamesAreUnclaimed(items: seq<Item>)
    requires forall item :: item in items ==> ':' !in item.meta.project && !StartsAnon(item.Id())
    ensures Unclaimed(items, |items|) && Alone(items, |items|)
  {
    hide Number, StartsAnon, Item.Id, Alone;
    forall i: nat, j: nat | i < |items| && j < |items| && items[i].Identified() && !items[j].Identified()
      ensures Due(items, i) != Due(items, j)
    {
      assert items[i] in items && items[j] in items;
      PlainKeysDiffer(items[i], items[j], Number(items[..j]));
    }
    AnonymousAloneIff(items);
  }

  lemma PlainKeysDiffer(a: Item, b: Item, n: nat)
    requires ':' !in a.meta.project && ':' !in b.meta.project && !StartsAnon(a.Id())
    ensures IdKey(a) != AnonymousKey(b, n)
  {
    hide Decimal, Item.Id;
    var p, q, rest := a.meta.project, b.meta.project, b.meta.exportId + ":" + Decimal(n);
    var s, t := IdKey(a), AnonymousKey(b, n);
    assert t == q + ":" + ("anon:" + rest) by { AnonSplit(q, b.meta.exportId, Decimal(n)); }
    assert ("anon:" + rest)[..5] == "anon:";
    if s == t { FirstColon(p, a.Id(), q, "anon:" + rest); }
  }

  lemma AnonSplit(q: string, e: string, d: string)
    ensures q + ":anon:" + e + ":" + d == q + ":" + ("anon:" + (e + ":" + d))
  {
    assert ":anon:" == ":" + "anon:";
  }

  /** What follows the first colon of a text is determined by the text. */
  lemma FirstColon(a: string, x: string, b: string, y: string)
    requires a + ":" + x == b + ":" + y && ':' !in a && ':' !in b
    ensures x == y
  {
    var s := a + ":" + x;
    assert s[|a|] == ':' && s[|b|] == ':';
    assert forall k :: 0 <= k < |a| ==> s[k] == a[k] && s[k] in a;
    assert forall k :: 0 <= k < |b| ==> s[k] == b[k] && s[k] in b;
    assert s[|a| + 1..] == x && s[|b| + 1..] == y;
  }

  /** Two anonymous rows have the same identity exactly when they are of the same
      project and export as written in it, and from the first one on nothing new
      has been kept. */
  lemma AnonymousShareIff(items: seq<Item>, i: nat, j: nat)
    requires i < j < |items| && !items[i].Identified() && !items[j].Identified()
    ensures KeyAt(items, i) == KeyAt(items, j) <==>
      Named(items[i]) == Named(items[j]) && forall k: nat :: i <= k < j ==> !Fresh(items, k)
  {
    hide AtMost, Item.Identified, KeepAll, Named, Fresh;
    var m, n := |KeepAll(items[..i]).order|, |KeepAll(items[..j]).order|;
    KeptSame(items, i, j);
    AnonymousKeyIs(items[i], m);
    AnonymousKeyIs(items[j], n);
    if m != n { AnonymousKeysDiffer(items[i], items[j], m, n); }
    if m == n && KeyAt(items, i) == KeyAt(items, j) {
      SameFront(Named(items[i]), Named(items[j]), ":" + Decimal(m));
    }
  }

  /** The front of an anonymous identity. */
  function Named(item: Item): string { item.meta.project + ":anon:" + item.meta.exportId }

  lemma AnonymousKeyIs(item: Item, n: nat)
    ensures AnonymousKey(item, n) == Named(item) + (":" + Decimal(n))
  {
    hide Decimal;
  }

  lemma SameFront(a: string, b: string, x: string)
    requires a + x == b + x
    ensures a == b
  {
    assert |a| == |b| && (a + x)[..|a|] == a && (b + x)[..|b|] == b;
  }

  lemma {:induction false} KeptSame(items: seq<Item>, i: nat, j: nat)
    requires i <= j <= |items|
    ensures |KeepAll(items[..i]).order| == |KeepAll(items[..j]).order| <==> forall k: nat :: i <= k < j ==> !Fresh(items, k)
    decreases j
  {
    hide KeepAll, Fresh;
    if i < j {
      KeptSame(items, i, j - 1);
      FreshGrows(items, j - 1);
      KeptGrows(items, i, j - 1);
    }
  }

  lemma FreshGrows(items: seq<Item>, n: nat)
    requires n < |items|
    ensures |KeepAll(items[..n + 1]).order| == |KeepAll(items[..n]).order| + if Fresh(items, n) then 1 else 0
  {
    hide KeepAll, KeyAt;
    KeptMore(items, n);
  }

  /** Two anonymous rows never share an identity once the first had its own. */
  lemma AnonymousApart(items: seq<Item>, i: nat, j: nat)
    requires i < j < |items| && !items[i].Identified() && !items[j].Identified() && Fresh(items, i)
    ensures KeyAt(items, i) != KeyAt(items, j)
  {
    hide AtMost, AnonymousKey, Item.Identified;
    ScannedIsKept(items, i);
    KeptGrows(items, i + 1, j);
    AnonymousKeysDiffer(items[i], items[j], |KeepAll(items[..i]).order|, |KeepAll(items[..j]).order|);
  }

  /** An identified row may take an identity an anonymous one would be given; the
      anonymous row then shares it, and so does the next one. */
  lemma AnonymousMayMerge()
    ensures exists items: seq<Item> ::
      && |items| == 4 && items[1].Identified() && !items[2].Identified() && !items[3].Identified()
      && KeyAt(items, 1) == KeyAt(items, 2) == KeyAt(items, 3)
  {
    var meta := Meta("E", "P", "1");
    var blank := Row("", "", "", 0, "", "", "", "", "", "");
    var a, b, c := Item(blank.(id := "x"), meta, ""), Item(blank.(id := "anon:E:2"), meta, ""), Item(blank, meta, "");
    var items := [a, b, c, c];
    assert a.Identified() && b.Identified() && !c.Identified();
    ExampleKeys(a, b, c);
    hide IdKey, AnonymousKey, Item.Identified, KeepAll;
    ExampleSizes(items, a, b, c);
    ExampleFirst(items, a, b);
  }

  lemma ExampleKeys(a: Item, b: Item, c: Item)
    requires a.meta.project == b.meta.project == c.meta.project == "P" && c.meta.exportId == "E"
    requires a.Id() == "x" && b.Id() == "anon:E:2"
    ensures IdKey(a) != IdKey(b) && AnonymousKey(c, 2) == IdKey(b)
  {
    assert Decimal(2) == "2";
    assert IdKey(a)[2] == 'x' && IdKey(b)[2] == 'a';
    assert "P" + ":" + "anon:E:2" == "P" + ":anon:" + "E" + ":" + "2";
  }

  lemma ExampleFirst(items: seq<Item>, a: Item, b: Item)
    requires |items| == 4 && items[0] == a && items[1] == b && a.Identified() && b.Identified()
    ensures KeyAt(items, 1) == IdKey(b)
  {
    hide IdKey, KeepAll;
  }

  lemma ExampleSizes(items: seq<Item>, a: Item, b: Item, c: Item)
    requires items == [a, b, c, c] && a.Identified() && b.Identified() && !c.Identified()
    requires IdKey(a) != IdKey(b) && AnonymousKey(c, 2) == IdKey(b)
    ensures |KeepAll(items[..2]).order| == 2 && |KeepAll(items[..3]).order| == 2
  {
    hide IdKey, AnonymousKey, AtMost, Item.Identified, Item.Ranked;
    assert items[..3][..2] == items[..2] == [a, b] && items[..2][..1] == [a] && [a][..0] == [];
    assert KeepAll([a]) == Keep(NOTHING, a) == Dict([IdKey(a)], map[IdKey(a) := a.AsEntry()]);
    assert KeepAll([a, b]) == Keep(KeepAll([a]), b);
    assert KeepAll(items[..2]).order == [IdKey(a), IdKey(b)] && IdKey(b) in KeepAll(items[..2]).at;
    assert items[..3][2] == c;
  }

  // ------------------------------------------------------------------ exports

  datatype Count = Count(name: string, amount: Option<int>)

  /** The counts of an export without rows; those that are not numbers are None. */
  datatype Summary = Summary(total: int, byCategory: seq<Count>, byOrigin: seq<Count>, bySeverity: seq<Count>)

  datatype Doc = Doc(exportId: string, framework: string, project: string, generated: string,
                     rows: seq<Row>, summary: Summary)
  {
    function About(): Meta { Meta(exportId, project, framework) }
  }

  datatype Snapshot = Snapshot(summary: Summary, generated: string)

  function ItemsOf(doc: Doc): (r: seq<Item>)
    ensures |r| == |doc.rows| && forall i :: 0 <= i < |r| ==> r[i] == Item(doc.rows[i], doc.About(), doc.generated)
  {
    seq(|doc.rows|, i requires 0 <= i < |doc.rows| => Item(doc.rows[i], doc.About(), doc.generated))
  }

  function Flatten(docs: seq<Doc>): seq<Item> {
    if docs == [] then [] else Flatten(docs[..|docs| - 1]) + ItemsOf(docs[|docs| - 1])
  }

  /** String comparison as `>=` does it. */
  predicate NotBefore(a: string, b: string) { a == b || Sorting.Below(b, a) }

  function Summarize(d: Dict<Snapshot>, doc: Doc): Dict<Snapshot> {
    if doc.rows != [] then d
    else if doc.project !in d.at || NotBefore(doc.generated, d.at[doc.project].generated)
    then d.Put(doc.project, Snapshot(doc.summary, doc.generated))
    else d
  }

  function Summaries(docs: seq<Doc>): Dict<Snapshot> {
    if docs == [] then Dict([], map[]) else Summarize(Summaries(docs[..|docs| - 1]), docs[|docs| - 1])
  }

  function WithRows(docs: seq<Doc>): set<string> {
    set d | d in docs && d.rows != [] :: d.project
  }

  function Frameworks(docs: seq<Doc>): Counter {
    if docs == [] then ZERO else Bump(Frameworks(docs[..|docs| - 1]), docs[|docs| - 1].framework, 1)
  }

  function Projects(docs: seq<Doc>): Counter {
    if docs == [] then ZERO else Bump(Projects(docs[..|docs| - 1]), docs[|docs| - 1].project, 1)
  }

  // ----------------------------------------------------------------- buckets

  datatype Facet = Category | Origin | Severity

  function FacetOf(row: Row, facet: Facet): string {
    match facet
    case Category => row.category
    case Origin => row.origin
    case Severity => row.severity
  }

  function CountsOf(summary: Summary, facet: Facet): seq<Count> {
    match facet
    case Category => summary.byCategory
    case Origin => summary.byOrigin
    case Severity => summary.bySeverity
  }

  function BumpRows(c: Counter, keys: seq<string>, entries: map<string, Entry>, facet: Facet): Counter
    requires forall k :: k in keys ==> k in entries
  {
    if keys == [] then c
    else Bump(BumpRows(c, keys[..|keys| - 1], entries, facet), FacetOf(entries[keys[|keys| - 1]].row, facet), 1)
  }

  function BumpCounts(c: Counter, counts: seq<Count>): Counter {
    if counts == [] then c
    else
      var before, last := BumpCounts(c, counts[..|counts| - 1]), counts[|counts| - 1];
      if last.amount.None? then before else Bump(before, last.name, last.amount.value)
  }

  /** The summaries of the projects that contributed no rows. */
  function BumpSummaries(c: Counter, projects: seq<string>, latest: map<string, Snapshot>, skip: set<string>, facet: Facet): Counter
    requires forall p :: p in projects ==> p in latest
  {
    if projects == [] then c
    else
      var p := projects[|projects| - 1];
      var before := BumpSummaries(c, projects[..|projects| - 1], latest, skip, facet);
      if p in skip then before else BumpCounts(before, CountsOf(latest[p].summary, facet))
  }

  function Bucket(entries: Dict<Entry>, latest: Dict<Snapshot>, skip: set<string>, facet: Facet): Counter
    requires entries.Valid() && latest.Valid()
  {
    BumpSummaries(BumpRows(ZERO, entries.order, entries.at, facet), latest.order, latest.at, skip, facet)
  }

  /** How often a label occurs among counts, and how much they come to. */
  function CountFor(counts: seq<Count>, tag: string): int {
    if counts == [] then 0
    else
      var last := counts[|counts| - 1];
      CountFor(counts[..|counts| - 1], tag) + if last.amount.Some? && Says(last.name, tag) then last.amount.value else 0
  }

  function CountAll(counts: seq<Count>): int {
    if counts == [] then 0
    else
      var last := counts[|counts| - 1];
      CountAll(counts[..|counts| - 1]) + if last.amount.Some? then last.amount.value else 0
  }

  function RowHas(entries: map<string, Entry>, facet: Facet, tag: string): string -> int {
    k => if k in entries && Says(FacetOf(entries[k].row, facet), tag) then 1 else 0
  }

  function SummaryHas(latest: map<string, Snapshot>, skip: set<string>, facet: Facet, tag: string): string -> int {
    p => if p in latest && p !in skip then CountFor(CountsOf(latest[p].summary, facet), tag) else 0
  }

  function SummaryAll(latest: map<string, Snapshot>, skip: set<string>, facet: Facet): string -> int {
    p => if p in latest && p !in skip then CountAll(CountsOf(latest[p].summary, facet)) else 0
  }

  lemma {:induction false} BumpCountsAdds(c: Counter, counts: seq<Count>, tag: string)
    requires c.Valid()
    ensures var d := BumpCounts(c, counts);
      d.Valid() && Total(d) == Total(c) + CountAll(counts) && Get(d, tag) == Get(c, tag) + CountFor(counts, tag)
  {
    hide Total, Bump;
    if counts != [] {
      var n := |counts| - 1;
      BumpCountsAdds(c, counts[..n], tag);
      if counts[n].amount.Some? {
        BumpAdds(BumpCounts(c, counts[..n]), counts[n].name, counts[n].amount.value);
      }
    }
  }

  lemma {:induction false} BumpRowsAdds(c: Counter, keys: seq<string>, entries: map<string, Entry>, facet: Facet, tag: string)
    requires c.Valid() && forall k :: k in keys ==> k in entries
    ensures var d := BumpRows(c, keys, entries, facet);
      d.Valid() && Total(d) == Total(c) + |keys| && Get(d, tag) == Get(c, tag) + Sum(keys, RowHas(entries, facet, tag))
  {
    hide Total, Bump;
    if keys != [] {
      var n := |keys| - 1;
      BumpRowsAdds(c, keys[..n], entries, facet, tag);
      assert keys[n] in keys;
      BumpAdds(BumpRows(c, keys[..n], entries, facet), FacetOf(entries[keys[n]].row, facet), 1);
    }
  }

  lemma {:induction false} BumpSummariesAdds(c: Counter, projects: seq<string>, latest: map<string, Snapshot>, skip: set<string>,
      facet: Facet, tag: string)
    requires c.Valid() && forall p :: p in projects ==> p in latest
    ensures var d := BumpSummaries(c, projects, latest, skip, facet);
      && d.Valid() && Total(d) == Total(c) + Sum(projects, SummaryAll(latest, skip, facet))
      && Get(d, tag) == Get(c, tag) + Sum(projects, SummaryHas(latest, skip, facet, tag))
  {
    hide Total, BumpCounts;
    if projects != [] {
      var n := |projects| - 1;
      BumpSummariesAdds(c, projects[..n], latest, skip, facet, tag);
      assert projects[n] in projects;
      BumpCountsAdds(BumpSummaries(c, projects[..n], latest, skip, facet), CountsOf(latest[projects[n]].summary, facet), tag);
    }
  }

  lemma EmptyCounter()
    ensures ZERO.Valid() && Total(ZERO) == 0 && forall l :: Get(ZERO, l) == 0
  {
  }

  /** A bucket's total is the number of observations plus the numbers in the
      summaries that count; each label has its share of both. */
  lemma BucketConserves(entries: Dict<Entry>, latest: Dict<Snapshot>, skip: set<string>, facet: Facet, tag: string)
    requires entries.Valid() && latest.Valid()
    ensures var b := Bucket(entries, latest, skip, facet);
      && Total(b) == |entries.order| + Sum(latest.order, SummaryAll(latest.at, skip, facet))
      && Get(b, tag) == Sum(entries.order, RowHas(entries.at, facet, tag)) + Sum(latest.order, SummaryHas(latest.at, skip, facet, tag))
  {
    hide Total, BumpRows, BumpSummaries, Get, Sum;
    EmptyCounter();
    BumpRowsAdds(ZERO, entries.order, entries.at, facet, tag);
    BumpSummariesAdds(BumpRows(ZERO, entries.order, entries.at, facet), latest.order, latest.at, skip, facet, tag);
  }

  lemma {:induction false} SummariesValid(docs: seq<Doc>)
    ensures Summaries(docs).Valid()
  {
    if docs != [] {
      hide NotBefore;
      var n := |docs| - 1;
      SummariesValid(docs[..n]);
      PutKeepsValid(Summaries(docs[..n]), docs[n].project, Snapshot(docs[n].summary, docs[n].generated));
    }
  }

  /** The framework and project counters each count every export once. */
  lemma {:induction false} ExportsCounted(docs: seq<Doc>)
    ensures Frameworks(docs).Valid() && Total(Frameworks(docs)) == |docs|
    ensures Projects(docs).Valid() && Total(Projects(docs)) == |docs|
  {
    hide Total, Bump;
    if docs == [] {
      EmptyCounter();
    } else {
      var n := |docs| - 1;
      ExportsCounted(docs[..n]);
      BumpAdds(Frameworks(docs[..n]), docs[n].framework, 1);
      BumpAdds(Projects(docs[..n]), docs[n].project, 1);
    }
  }

  // --------------------------------------------------------------- the index

  datatype Index = Index(
    exportCount: nat, observationCount: int, uniqueCount: nat,
    byFramework: Counter, byProject: Counter, byCategory: Counter, byOrigin: Counter, bySeverity: Counter)

  function SummaryTotal(latest: map<string, Snapshot>, skip: set<string>): string -> int {
    p => if p in latest && p !in skip then latest[p].summary.total else 0
  }

  function Observations(docs: seq<Doc>): (r: Dict<Entry>)
    ensures r.Valid()
  {
    KeepAllValid(Flatten(docs));
    KeepAll(Flatten(docs))
  }

  function LatestSummaries(docs: seq<Doc>): (r: Dict<Snapshot>)
    ensures r.Valid()
  {
    SummariesValid(docs);
    Summaries(docs)
  }

  function Indexed(docs: seq<Doc>): Index {
    var entries, latest, skip := Observations(docs), LatestSummaries(docs), WithRows(docs);
    Index(|docs|, |entries.order| + Sum(latest.order, SummaryTotal(latest.at, skip)), |entries.order|,
          Frameworks(docs), Projects(docs),
          Bucket(entries, latest, skip, Category), Bucket(entries, latest, skip, Origin), Bucket(entries, latest, skip, Severity))
  }

  // ------------------------------------------------------- what the index says

  /** The identities whose newest row has this label. */
  ghost function Having(items: seq<Item>, facet: Facet, tag: string): set<string> {
    set key | key in Identities(items) && exists j: nat :: Newest(items, key, j) && Says(FacetOf(items[j].row, facet), tag)
  }

  function Ones(ks: seq<string>, f: string -> int): set<string> { set k | k in ks && f(k) == 1 }

  lemma OnesMore(ks: seq<string>, f: string -> int)
    requires ks != [] && Distinct(ks)
    ensures var n := |ks| - 1;
      Ones(ks, f) == Ones(ks[..n], f) + (if f(ks[n]) == 1 then {ks[n]} else {}) && ks[n] !in Ones(ks[..n], f)
  {
    assert ks == ks[..|ks| - 1] + [ks[|ks| - 1]];
  }

  lemma {:induction false} SumCounts(ks: seq<string>, f: string -> int)
    requires Distinct(ks) && forall k :: k in ks ==> f(k) == 0 || f(k) == 1
    ensures Sum(ks, f) == |Ones(ks, f)|
  {
    if ks == [] {
      assert Ones(ks, f) == {};
    } else {
      var n := |ks| - 1;
      assert ks[n] in ks;
      SumCounts(ks[..n], f);
      OnesMore(ks, f);
      hide Ones, Distinct;
    }
  }

  lemma RowsHaving(items: seq<Item>, facet: Facet, tag: string)
    ensures var d := KeepAll(items);
      Sum(d.order, RowHas(d.at, facet, tag)) == |Having(items, facet, tag)|
  {
    hide KeepAll, Newest, KeyAt, FacetOf, Says;
    var d := KeepAll(items);
    KeepAllValid(items);
    IdentitiesKept(items);
    var f := RowHas(d.at, facet, tag);
    SumCounts(d.order, f);
    forall key ensures key in Ones(d.order, f) <==> key in Having(items, facet, tag) {
      KeptIsNewest(items, key);
    }
    assert Ones(d.order, f) == Having(items, facet, tag);
  }

  /** Export `i` is of the project, and has no rows. */
  predicate Rowless(docs: seq<Doc>, project: string, i: nat)
    requires i < |docs|
  {
    docs[i].project == project && docs[i].rows == []
  }

  /** The export without rows that counts for a project: the last generated, and of
      several such the last scanned. */
  ghost predicate NewestSummary(docs: seq<Doc>, project: string, j: nat) {
    && j < |docs| && Rowless(docs, project, j)
    && (forall i :: 0 <= i < |docs| && Rowless(docs, project, i) ==>
          !Sorting.Precedes(docs[j].generated, docs[i].generated))
    && (forall i :: j < i < |docs| && Rowless(docs, project, i) ==>
          docs[i].generated != docs[j].generated)
  }

  lemma NotBeforeIs(a: string, b: string)
    ensures NotBefore(a, b) <==> !Sorting.Precedes(a, b)
    ensures NotBefore(a, b) && NotBefore(b, a) ==> a == b
  {
    Sorting.BelowOrders(a, b, a);
    Sorting.BelowIsPrecedes(a, b);
    Sorting.BelowIsPrecedes(b, a);
    hide Sorting.Below, Sorting.Precedes;
  }

  lemma NotBeforeOrders(a: string, b: string, c: string)
    ensures NotBefore(a, b) && NotBefore(b, c) ==> NotBefore(a, c)
    ensures NotBefore(a, b) || NotBefore(b, a)
  {
    Sorting.BelowOrders(c, b, a);
    Sorting.BelowOrders(a, b, a);
    hide Sorting.Below;
  }

  /** The same, as the scan decides it. */
  ghost predicate Chosen(docs: seq<Doc>, project: string, j: nat) {
    && j < |docs| && Rowless(docs, project, j)
    && (forall i :: 0 <= i < |docs| && Rowless(docs, project, i) ==> NotBefore(docs[j].generated, docs[i].generated))
    && (forall i :: j < i < |docs| && Rowless(docs, project, i) ==> !NotBefore(docs[i].generated, docs[j].generated))
  }

  ghost predicate Chooses(docs: seq<Doc>, project: string, d: map<string, Snapshot>) {
    if project in d then exists j: nat :: Chosen(docs, project, j) && d[project] == Snapshot(docs[j].summary, docs[j].generated)
    else forall i :: 0 <= i < |docs| ==> !Rowless(docs, project, i)
  }

  lemma {:induction false} ScanChooses(docs: seq<Doc>, project: string)
    ensures Chooses(docs, project, Summaries(docs).at)
  {
    hide NotBefore;
    if docs != [] {
      var n := |docs| - 1;
      ScanChooses(docs[..n], project);
      hide Chooses;
      if Rowless(docs, project, n) {
        ChooseNext(docs, project, Summaries(docs[..n]).at);
      } else {
        ChooseSame(docs, project, Summaries(docs[..n]).at, Summaries(docs).at);
      }
    }
  }

  lemma ChooseSame(docs: seq<Doc>, project: string, before: map<string, Snapshot>, now: map<string, Snapshot>)
    requires docs != [] && !Rowless(docs, project, |docs| - 1) && Chooses(docs[..|docs| - 1], project, before)
    requires (project in now <==> project in before) && (project in now ==> now[project] == before[project])
    ensures Chooses(docs, project, now)
  {
    hide NotBefore;
    var n := |docs| - 1;
    assert forall i :: 0 <= i < n ==> docs[..n][i] == docs[i] && (Rowless(docs[..n], project, i) <==> Rowless(docs, project, i));
    if project in before {
      var j: nat :| Chosen(docs[..n], project, j) && before[project] == Snapshot(docs[..n][j].summary, docs[..n][j].generated);
      assert Chosen(docs, project, j);
    }
  }

  lemma ChooseNext(docs: seq<Doc>, project: string, before: map<string, Snapshot>)
    requires docs != [] && Rowless(docs, project, |docs| - 1) && Chooses(docs[..|docs| - 1], project, before)
    ensures var last := docs[|docs| - 1];
      Chooses(docs, project,
        if project !in before || NotBefore(last.generated, before[project].generated)
        then before[project := Snapshot(last.summary, last.generated)] else before)
  {
    hide NotBefore;
    var n := |docs| - 1;
    var last := docs[n];
    NotBeforeOrders(last.generated, last.generated, last.generated);
    assert forall i :: 0 <= i < n ==> docs[..n][i] == docs[i] && (Rowless(docs[..n], project, i) <==> Rowless(docs, project, i));
    if project in before {
      var j: nat :| Chosen(docs[..n], project, j) && before[project] == Snapshot(docs[..n][j].summary, docs[..n][j].generated);
      NotBeforeOrders(last.generated, docs[j].generated, last.generated);
      forall i | 0 <= i < n && Rowless(docs, project, i) && NotBefore(last.generated, docs[j].generated)
        ensures NotBefore(last.generated, docs[i].generated)
      {
        NotBeforeOrders(last.generated, docs[j].generated, docs[i].generated);
      }
      assert if NotBefore(last.generated, docs[j].generated) then Chosen(docs, project, n) else Chosen(docs, project, j);
    } else {
      assert Chosen(docs, project, n);
    }
  }

  lemma SummaryIsNewest(docs: seq<Doc>, project: string)
    ensures var d := LatestSummaries(docs).at;
      if project in d then exists j: nat :: NewestSummary(docs, project, j) && d[project] == Snapshot(docs[j].summary, docs[j].generated)
      else forall i :: 0 <= i < |docs| ==> !Rowless(docs, project, i)
  {
    hide NotBefore, Sorting.Precedes, Summaries;
    ScanChooses(docs, project);
    forall a, b
      ensures NotBefore(a, b) <==> !Sorting.Precedes(a, b)
      ensures NotBefore(a, b) && NotBefore(b, a) ==> a == b
      ensures NotBefore(a, a)
    {
      NotBeforeIs(a, b);
      NotBeforeOrders(a, a, a);
    }
    forall j: nat ensures Chosen(docs, project, j) ==> NewestSummary(docs, project, j) {
    }
  }

  /** What the index counts. */
  ghost predicate Counted(docs: seq<Doc>, index: Index) {
    var items, latest, skip := Flatten(docs), LatestSummaries(docs), WithRows(docs);
    && index.exportCount == |docs| && index.uniqueCount == |Identities(items)|
    && index.observationCount == |Identities(items)| + Sum(latest.order, SummaryTotal(latest.at, skip))
    && (forall tag :: Get(index.byFramework, tag) == |OfFramework(docs, tag)|)
    && (forall tag :: Get(index.byProject, tag) == |OfProject(docs, tag)|)
    && (forall tag :: Get(index.byCategory, tag) ==
          |Having(items, Category, tag)| + Sum(latest.order, SummaryHas(latest.at, skip, Category, tag)))
    && (forall tag :: Get(index.byOrigin, tag) ==
          |Having(items, Origin, tag)| + Sum(latest.order, SummaryHas(latest.at, skip, Origin, tag)))
    && (forall tag :: Get(index.bySeverity, tag) ==
          |Having(items, Severity, tag)| + Sum(latest.order, SummaryHas(latest.at, skip, Severity, tag)))
  }

  function OfFramework(docs: seq<Doc>, tag: string): set<int> {
    set i | 0 <= i < |docs| && Says(docs[i].framework, tag)
  }

  function OfProject(docs: seq<Doc>, tag: string): set<int> {
    set i | 0 <= i < |docs| && Says(docs[i].project, tag)
  }

  lemma OfMore(docs: seq<Doc>, tag: string)
    requires docs != []
    ensures var n := |docs| - 1;
      && OfFramework(docs, tag) == OfFramework(docs[..n], tag) + (if Says(docs[n].framework, tag) then {n} else {})
      && OfProject(docs, tag) == OfProject(docs[..n], tag) + (if Says(docs[n].project, tag) then {n} else {})
      && n !in OfFramework(docs[..n], tag) && n !in OfProject(docs[..n], tag)
  {
    hide Says;
  }

  lemma {:induction false} FrameworksCounted(docs: seq<Doc>, tag: string)
    ensures Get(Frameworks(docs), tag) == |OfFramework(docs, tag)|
    ensures Get(Projects(docs), tag) == |OfProject(docs, tag)|
  {
    if docs == [] {
      assert OfFramework(docs, tag) == {} && OfProject(docs, tag) == {};
    } else {
      var n := |docs| - 1;
      FrameworksCounted(docs[..n], tag);
      CountedMore(docs, tag);
      OfMore(docs, tag);
      hide *;
    }
  }

  lemma CountedMore(docs: seq<Doc>, tag: string)
    requires docs != []
    ensures var n := |docs| - 1;
      && Get(Frameworks(docs), tag) == Get(Frameworks(docs[..n]), tag) + (if Says(docs[n].framework, tag) then 1 else 0)
      && Get(Projects(docs), tag) == Get(Projects(docs[..n]), tag) + (if Says(docs[n].project, tag) then 1 else 0)
  {
    hide Bump, Get, Total;
    var n := |docs| - 1;
    ExportsCounted(docs[..n]);
    BumpAdds(Frameworks(docs[..n]), docs[n].framework, 1);
    BumpAdds(Projects(docs[..n]), docs[n].project, 1);
  }

  lemma IndexCounts(docs: seq<Doc>)
    ensures Counted(docs, Indexed(docs))
  {
    hide Get, Sum, Bucket, Frameworks, Projects, LatestSummaries, KeepAll, Having, Identities, Says;
    var items, entries, latest, skip := Flatten(docs), Observations(docs), LatestSummaries(docs), WithRows(docs);
    IdentitiesKept(items);
    forall tag
      ensures Get(Frameworks(docs), tag) == |OfFramework(docs, tag)|
      ensures Get(Projects(docs), tag) == |OfProject(docs, tag)|
    {
      FrameworksCounted(docs, tag);
    }
    forall facet, tag
      ensures Get(Bucket(entries, latest, skip, facet), tag) ==
        |Having(items, facet, tag)| + Sum(latest.order, SummaryHas(latest.at, skip, facet, tag))
    {
      BucketConserves(entries, latest, skip, facet, tag);
      RowsHaving(items, facet, tag);
    }
  }

  method AddCounts(c: Counter, counts: seq<Count>) returns (d: Counter)
    ensures d == BumpCounts(c, counts)
  {
    hide Bump;
    d := c;
    for i := 0 to |counts|
      invariant d == BumpCounts(c, counts[..i])
    {
      assert counts[..i + 1][..i] == counts[..i];
      if counts[i].amount.Some? { d := Bump(d, counts[i].name, counts[i].amount.value); }
    }
    assert counts[..|counts|] == counts;
  }

  method KeepRows(observations: Dict<Entry>, doc: Doc, ghost before: seq<Item>) returns (r: Dict<Entry>)
    requires observations == KeepAll(before)
    ensures r == KeepAll(before + ItemsOf(doc))
  {
    hide Keep;
    r := observations;
    assert before + ItemsOf(doc)[..0] == before;
    for i := 0 to |doc.rows|
      invariant r == KeepAll(before + ItemsOf(doc)[..i])
    {
      var item := Item(doc.rows[i], doc.About(), doc.generated);
      var more := before + ItemsOf(doc)[..i + 1];
      assert more[..|more| - 1] == before + ItemsOf(doc)[..i];
      r := Keep(r, item);
    }
    assert ItemsOf(doc)[..|doc.rows|] == ItemsOf(doc);
  }

  method ScanExports(docs: seq<Doc>)
    returns (byFramework: Counter, byProject: Counter, observations: Dict<Entry>, latest: Dict<Snapshot>, withRows: set<string>)
    ensures byFramework == Frameworks(docs) && byProject == Projects(docs)
    ensures observations == Observations(docs) && latest == LatestSummaries(docs) && withRows == WithRows(docs)
  {
    hide Bump, KeepAll, ItemsOf, NotBefore;
    byFramework, byProject, observations, latest, withRows := ZERO, ZERO, NOTHING, Dict([], map[]), {};
    KeepNothing();
    for i := 0 to |docs|
      invariant byFramework == Frameworks(docs[..i]) && byProject == Projects(docs[..i])
      invariant observations == KeepAll(Flatten(docs[..i])) && latest == Summaries(docs[..i]) && withRows == WithRows(docs[..i])
    {
      var doc := docs[i];
      assert docs[..i + 1][..i] == docs[..i];
      RowsMore(docs, i);
      byFramework := Bump(byFramework, doc.framework, 1);
      byProject := Bump(byProject, doc.project, 1);
      if doc.rows != [] {
        withRows := withRows + {doc.project};
        observations := KeepRows(observations, doc, Flatten(docs[..i]));
      } else {
        NoItems(doc, Flatten(docs[..i]));
        if doc.project !in latest.at || NotBefore(doc.generated, latest.at[doc.project].generated) {
          latest := latest.Put(doc.project, Snapshot(doc.summary, doc.generated));
        }
      }
    }
    assert docs[..|docs|] == docs;
  }

  lemma KeepNothing()
    ensures KeepAll([]) == NOTHING
  {
  }

  lemma NoItems(doc: Doc, before: seq<Item>)
    requires doc.rows == []
    ensures before + ItemsOf(doc) == before
  {
  }

  lemma RowsMore(docs: seq<Doc>, i: nat)
    requires i < |docs|
    ensures WithRows(docs[..i + 1]) == WithRows(docs[..i]) + if docs[i].rows != [] then {docs[i].project} else {}
  {
    assert forall d :: d in docs[..i + 1] <==> d in docs[..i] || d == docs[i] by {
      assert docs[..i + 1] == docs[..i] + [docs[i]];
    }
  }

  method CountRows(observations: Dict<Entry>) returns (byCategory: Counter, byOrigin: Counter, bySeverity: Counter)
    requires observations.Valid()
    ensures byCategory == BumpRows(ZERO, observations.order, observations.at, Category)
    ensures byOrigin == BumpRows(ZERO, observations.order, observations.at, Origin)
    ensures bySeverity == BumpRows(ZERO, observations.order, observations.at, Severity)
  {
    hide Bump;
    byCategory, byOrigin, bySeverity := ZERO, ZERO, ZERO;
    var keys := observations.order;
    for i := 0 to |keys|
      invariant byCategory == BumpRows(ZERO, keys[..i], observations.at, Category)
      invariant byOrigin == BumpRows(ZERO, keys[..i], observations.at, Origin)
      invariant bySeverity == BumpRows(ZERO, keys[..i], observations.at, Severity)
    {
      assert keys[..i + 1][..i] == keys[..i];
      var row := observations.at[keys[i]].row;
      byCategory := Bump(byCategory, row.category, 1);
      byOrigin := Bump(byOrigin, row.origin, 1);
      bySeverity := Bump(bySeverity, row.severity, 1);
    }
    assert keys[..|keys|] == keys;
  }

  method AddSummaries(latest: Dict<Snapshot>, skip: set<string>, c: Counter, o: Counter, s: Counter)
    returns (total: int, byCategory: Counter, byOrigin: Counter, bySeverity: Counter)
    requires latest.Valid()
    ensures total == Sum(latest.order, SummaryTotal(latest.at, skip))
    ensures byCategory == BumpSummaries(c, latest.order, latest.at, skip, Category)
    ensures byOrigin == BumpSummaries(o, latest.order, latest.at, skip, Origin)
    ensures bySeverity == BumpSummaries(s, latest.order, latest.at, skip, Severity)
  {
    hide BumpCounts;
    byCategory, byOrigin, bySeverity := c, o, s;
    var projects := latest.order;
    total := 0;
    for i := 0 to |projects|
      invariant total == Sum(projects[..i], SummaryTotal(latest.at, skip))
      invariant byCategory == BumpSummaries(c, projects[..i], latest.at, skip, Category)
      invariant byOrigin == BumpSummaries(o, projects[..i], latest.at, skip, Origin)
      invariant bySeverity == BumpSummaries(s, projects[..i], latest.at, skip, Severity)
    {
      assert projects[..i + 1][..i] == projects[..i];
      if projects[i] in skip { continue; }
      var summary := latest.at[projects[i]].summary;
      total := total + summary.total;
      byCategory := AddCounts(byCategory, summary.byCategory);
      byOrigin := AddCounts(byOrigin, summary.byOrigin);
      bySeverity := AddCounts(bySeverity, summary.bySeverity);
    }
    assert projects[..|projects|] == projects;
  }

  /** `build_aggregate`. */
  method BuildAggregate(docs: seq<Doc>) returns (index: Index)
    ensures index == Indexed(docs) && Counted(docs, index)
  {
    IndexCounts(docs);
    hide Counted;
    hide Observations, LatestSummaries, BumpRows, BumpSummaries, Sum, Frameworks, Projects;
    var byFramework, byProject, observations, latest, withRows := ScanExports(docs);
    var c, o, s := CountRows(observations);
    var total;
    total, c, o, s := AddSummaries(latest, withRows, c, o, s);
    var unique := |observations.order|;
    index := Index(|docs|, unique + total, unique, byFramework, byProject, c, o, s);
  }

  /** Framework and project totals equal the number of exports; category, origin
      and severity totals each equal the unique observations plus the numbers in
      the summaries of projects without rows. */
  lemma IndexConserves(docs: seq<Doc>)
    ensures var index, latest, skip := Indexed(docs), LatestSummaries(docs), WithRows(docs);
      && Total(index.byFramework) == index.exportCount && Total(index.byProject) == index.exportCount
      && Total(index.byCategory) == index.uniqueCount + Sum(latest.order, SummaryAll(latest.at, skip, Category))
      && Total(index.byOrigin) == index.uniqueCount + Sum(latest.order, SummaryAll(latest.at, skip, Origin))
      && Total(index.bySeverity) == index.uniqueCount + Sum(latest.order, SummaryAll(latest.at, skip, Severity))
  {
    hide Total, Bucket, Observations, LatestSummaries, Frameworks, Projects, Sum;
    ExportsCounted(docs);
    var entries, latest, skip := Observations(docs), LatestSummaries(docs), WithRows(docs);
    BucketConserves(entries, latest, skip, Category, "");
    BucketConserves(entries, latest, skip, Origin, "");
    BucketConserves(entries, latest, skip, Severity, "");
  }
}
