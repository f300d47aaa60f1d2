/** Sorted lists of distinct strings. */
module Sorting {
  import opened Text

  /** Code point order, as sorting strings uses. */
  predicate Below(a: string, b: string) {
    b != "" && (a == "" || a[0] < b[0] || (a[0] == b[0] && Below(a[1..], b[1..])))
  }

  predicate Ascending(xs: seq<string>) {
    forall i, j :: 0 <= i < j < |xs| ==> Below(xs[i], xs[j])
  }

  lemma {:induction false} BelowOrders(a: string, b: string, c: string)
    ensures !Below(a, a)
    ensures a == b || Below(a, b) || Below(b, a)
    ensures Below(a, b) && Below(b, c) ==> Below(a, c)
  {
    if a != "" && b != "" {
      BelowOrders(a[1..], b[1..], if c != "" then c[1..] else "");
    } else if a != "" {
      BelowOrders(a[1..], "", "");
    }
  }

  /** `b` goes on where `a` ends, or has the greater character where they part. */
  predicate PartsAt(a: string, b: string, k: nat) {
    k <= |a| && k < |b| && a[..k] == b[..k] && (k == |a| || a[k] < b[k])
  }

  predicate Precedes(a: string, b: string) {
    exists k: nat :: k <= |a| && PartsAt(a, b, k)
  }

  /** Comparing one character at a time is comparing where the strings part. */
  lemma {:induction false} BelowIsPrecedes(a: string, b: string)
    ensures Below(a, b) <==> Precedes(a, b)
  {
    if a == "" || b == "" {
      assert b != "" ==> PartsAt(a, b, 0);
    } else {
      var x, y := a[1..], b[1..];
      BelowIsPrecedes(x, y);
      if a[0] < b[0] { assert PartsAt(a, b, 0); }
      if k: nat :| k <= |x| && a[0] == b[0] && PartsAt(x, y, k) {
        assert a[..k + 1] == [a[0]] + x[..k] && b[..k + 1] == [b[0]] + y[..k];
        assert PartsAt(a, b, k + 1);
      }
      if k: nat :| k <= |a| && PartsAt(a, b, k) {
        if k > 0 {
          assert a[..k][0] == b[..k][0];
          assert x[..k - 1] == a[..k][1..] && y[..k - 1] == b[..k][1..];
          assert PartsAt(x, y, k - 1);
        }
      }
    }
  }

  function Insert(x: string, xs: seq<string>): seq<string> {
    if xs == [] then [x]
    else if x == xs[0] then xs
    else if Below(x, xs[0]) then [x] + xs
    else [xs[0]] + Insert(x, xs[1..])
  }

  /** `sorted({...})`: ascending, without duplicates. */
  function SortedSet(xs: seq<string>): seq<string> {
    if xs == [] then [] else Insert(xs[|xs| - 1], SortedSet(xs[..|xs| - 1]))
  }

  lemma {:induction false} InsertKeeps(x: string, xs: seq<string>)
    requires Ascending(xs)
    ensures Ascending(Insert(x, xs))
    ensures forall y :: y in Insert(x, xs) <==> y == x || y in xs
  {
    if xs != [] {
      BelowOrders(x, xs[0], "");
      if Below(x, xs[0]) {
        forall k | 0 <= k < |xs| ensures Below(x, xs[k]) {
          BelowOrders(x, xs[0], xs[k]);
        }
      } else if x != xs[0] {
        InsertKeeps(x, xs[1..]);
        assert xs == [xs[0]] + xs[1..];
        var rest := Insert(x, xs[1..]);
        forall k | 0 <= k < |rest| ensures Below(xs[0], rest[k]) {
          assert rest[k] in rest;
        }
      }
    }
  }

  lemma {:induction false} SortedSetSorts(xs: seq<string>)
    ensures Ascending(SortedSet(xs))
    ensures forall x :: x in SortedSet(xs) <==> x in xs
  {
    if xs != [] {
      var n := |xs| - 1;
      SortedSetSorts(xs[..n]);
      InsertKeeps(xs[n], SortedSet(xs[..n]));
      assert xs == xs[..n] + [xs[n]];
    }
  }

  lemma FirstOnce(xs: seq<string>)
    requires Ascending(xs) && xs != []
    ensures forall x :: x in xs[1..] <==> x in xs && x != xs[0]
  {
    BelowOrders(xs[0], xs[0], xs[0]);
    assert xs == [xs[0]] + xs[1..];
  }

  /** Only one ascending list has a given set of members. */
  lemma {:induction false} AscendingUnique(xs: seq<string>, ys: seq<string>)
    requires Ascending(xs) && Ascending(ys)
    requires forall x :: x in xs <==> x in ys
    ensures xs == ys
  {
    if xs == [] {
      EmptyOrMember(ys);
    } else {
      assert xs[0] in xs;
      var i :| 0 <= i < |ys| && ys[i] == xs[0];
      assert ys[0] in xs;
      var j :| 0 <= j < |xs| && xs[j] == ys[0];
      BelowOrders(xs[0], ys[0], xs[0]);
      BelowOrders(ys[0], xs[0], ys[0]);
      assert xs[0] == ys[0];
      FirstOnce(xs);
      FirstOnce(ys);
      forall x ensures x in xs[1..] <==> x in ys[1..] {
        assert x in xs[1..] <==> x in xs && x != xs[0];
        assert x in ys[1..] <==> x in ys && x != ys[0];
      }
      AscendingUnique(xs[1..], ys[1..]);
      assert xs == [xs[0]] + xs[1..] && ys == [ys[0]] + ys[1..];
    }
  }

  /** The order in which a manifest lists its references, and repetitions among
      them, do not matter. */
  lemma SortedSetCanonical(xs: seq<string>, ys: seq<string>)
    ensures SortedSet(xs) == SortedSet(ys) <==> forall x :: x in xs <==> x in ys
  {
    SortedSetSorts(xs);
    SortedSetSorts(ys);
    if forall x :: x in xs <==> x in ys {
      AscendingUnique(SortedSet(xs), SortedSet(ys));
    }
  }
}
