/** The precedence of semantic versions, and the ranges adapters declare. */
module Semver {
  import opened Text

  /** A parsed version. Identifiers are nonempty runs of letters, digits and hyphens. */
  datatype SemVer = SemVer(major: nat, minor: nat, patch: nat, prerelease: seq<string>, build: seq<string>)

  predicate IsDigit(c: char) { '0' <= c <= '9' }

  predicate Numeric(s: string) {
    s != "" && forall i :: 0 <= i < |s| ==> IsDigit(s[i])
  }

  function Number(s: string): (n: nat)
    requires forall i :: 0 <= i < |s| ==> IsDigit(s[i])
  {
    if s == "" then 0
    else
      var last := s[|s| - 1];
      assert IsDigit(last);
      10 * Number(s[..|s| - 1]) + (last as int - '0' as int)
  }

  function Sign(a: int, b: int): int { if a < b then -1 else if a == b then 0 else 1 }

  /** String comparison, by code points. */
  function CompareText(a: string, b: string): int {
    if a == "" || b == "" then Sign(|a|, |b|)
    else if a[0] != b[0] then Sign(a[0] as int, b[0] as int)
    else CompareText(a[1..], b[1..])
  }

  function CompareField(a: string, b: string): int {
    if Numeric(a) && Numeric(b) then Sign(Number(a), Number(b))
    else if Numeric(a) then -1
    else if Numeric(b) then 1
    else CompareText(a, b)
  }

  function CompareFields(xs: seq<string>, ys: seq<string>): int {
    if xs == [] || ys == [] then Sign(|xs|, |ys|)
    else if CompareField(xs[0], ys[0]) != 0 then CompareField(xs[0], ys[0])
    else CompareFields(xs[1..], ys[1..])
  }

  /** The comparison loop over identifiers, which stops at the first difference. */
  method CompareIdentifiers(left: seq<string>, right: seq<string>) returns (r: int)
    ensures r == CompareFields(left, right)
  {
    var length := if |left| < |right| then |right| else |left|;
    for index := 0 to length
      invariant index <= |left| && index <= |right|
      invariant CompareFields(left, right) == CompareFields(left[index..], right[index..])
    {
      if index >= |left| { return -1; }
      if index >= |right| { return 1; }
      var l, r := left[index], right[index];
      var leftIsNum, rightIsNum := Numeric(l), Numeric(r);
      TextEquality(l, r);
      if leftIsNum && rightIsNum {
        if Number(l) != Number(r) { return if Number(l) < Number(r) then -1 else 1; }
      } else if leftIsNum != rightIsNum {
        return if leftIsNum then -1 else 1;
      } else if l != r {
        return CompareText(l, r);
      }
    }
    return 0;
  }

  function Compare(v: SemVer, w: SemVer): int {
    if v.major != w.major then Sign(v.major, w.major)
    else if v.minor != w.minor then Sign(v.minor, w.minor)
    else if v.patch != w.patch then Sign(v.patch, w.patch)
    else if v.prerelease == [] && w.prerelease == [] then 0
    else if v.prerelease == [] then 1
    else if w.prerelease == [] then -1
    else CompareFields(v.prerelease, w.prerelease)
  }

  datatype Range = Range(lower: SemVer, upper: Option<SemVer>)

  predicate InRange(v: SemVer, range: Range) {
    Compare(v, range.lower) >= 0 && (range.upper.Some? ==> Compare(v, range.upper.value) < 0)
  }

  // -------------------------------------------------------- a total preorder

  lemma {:induction false} TextOrders(a: string, b: string, c: string)
    ensures CompareText(a, b) == -CompareText(b, a) && -1 <= CompareText(a, b) <= 1
    ensures CompareText(a, b) <= 0 && CompareText(b, c) <= 0 ==> CompareText(a, c) <= 0
    ensures CompareText(a, b) <= 0 && CompareText(b, c) <= 0 && CompareText(a, c) == 0 ==> CompareText(a, b) == 0
  {
    if a != "" && b != "" {
      TextOrders(a[1..], b[1..], if c != "" then c[1..] else "");
    }
  }

  lemma {:induction false} TextEquality(a: string, b: string)
    ensures CompareText(a, b) == 0 <==> a == b
  {
    if a != "" && b != "" {
      TextEquality(a[1..], b[1..]);
      assert a == [a[0]] + a[1..] && b == [b[0]] + b[1..];
    }
  }

  lemma FieldOrders(a: string, b: string, c: string)
    ensures CompareField(a, b) == -CompareField(b, a) && -1 <= CompareField(a, b) <= 1
    ensures CompareField(a, b) <= 0 && CompareField(b, c) <= 0 ==> CompareField(a, c) <= 0
    ensures CompareField(a, b) <= 0 && CompareField(b, c) <= 0 && CompareField(a, c) == 0 ==> CompareField(a, b) == 0
  {
    hide Numeric, CompareText;
    TextOrders(a, b, c);
  }

  lemma {:induction false} FieldsOrder(xs: seq<string>, ys: seq<string>, zs: seq<string>)
    ensures CompareFields(xs, ys) == -CompareFields(ys, xs) && -1 <= CompareFields(xs, ys) <= 1
    ensures CompareFields(xs, ys) <= 0 && CompareFields(ys, zs) <= 0 ==> CompareFields(xs, zs) <= 0
    ensures CompareFields(xs, ys) <= 0 && CompareFields(ys, zs) <= 0 && CompareFields(xs, zs) == 0 ==> CompareFields(xs, ys) == 0
  {
    hide CompareField;
    if xs != [] && ys != [] {
      FieldOrders(xs[0], ys[0], "");
      if zs == [] {
        FieldsOrder(xs[1..], ys[1..], []);
      } else {
        FieldOrders(xs[0], ys[0], zs[0]);
        FieldOrders(ys[0], zs[0], xs[0]);
        FieldOrders(zs[0], ys[0], xs[0]);
        FieldOrders(xs[0], zs[0], "");
        FieldsOrder(xs[1..], ys[1..], zs[1..]);
      }
    }
  }

  /** Comparing is a total preorder: the sign flips with the arguments, and
      "not after" is transitive. */
  lemma TotalPreorder(u: SemVer, v: SemVer, w: SemVer)
    ensures Compare(u, v) == -Compare(v, u) && -1 <= Compare(u, v) <= 1
    ensures Compare(u, v) <= 0 && Compare(v, w) <= 0 ==> Compare(u, w) <= 0
    ensures Compare(u, v) <= 0 && Compare(v, w) <= 0 && Compare(u, w) == 0 ==> Compare(u, v) == 0 && Compare(v, w) == 0
  {
    hide CompareFields;
    FieldsOrder(u.prerelease, v.prerelease, w.prerelease);
    FieldsOrder(v.prerelease, w.prerelease, u.prerelease);
    FieldsOrder(w.prerelease, v.prerelease, u.prerelease);
    FieldsOrder(u.prerelease, w.prerelease, v.prerelease);
  }

  /** A range accepts everything between two versions it accepts, so in
      particular versions equal but for their build metadata, or not at all. */
  lemma RangesAreConvex(range: Range, u: SemVer, v: SemVer, w: SemVer)
    requires InRange(u, range) && InRange(w, range) && Compare(u, v) <= 0 && Compare(v, w) <= 0
    ensures InRange(v, range)
  {
    hide Compare;
    TotalPreorder(range.lower, u, v);
    TotalPreorder(u, range.lower, v);
    TotalPreorder(v, range.lower, u);
    if range.upper.Some? {
      var top := range.upper.value;
      TotalPreorder(top, v, w);
      TotalPreorder(v, top, w);
      TotalPreorder(w, top, v);
    }
  }

  // -------------------------------------------------- Semantic Versioning 2.0.0

  /** ASCII order, said without recursion: where they first differ. */
  ghost predicate TextBefore(a: string, b: string) {
    exists k :: 0 <= k <= |a| && k < |b| && a[..k] == b[..k] && (k == |a| || a[k] < b[k])
  }

  /** Section 11.4 of Semantic Versioning 2.0.0 on one pair of identifiers. */
  ghost predicate FieldBefore(a: string, b: string) {
    if Numeric(a) != Numeric(b) then Numeric(a)
    else if Numeric(a) then Number(a) < Number(b)
    else TextBefore(a, b)
  }

  /** The leftmost differing identifier decides; all equal, the shorter list. */
  ghost predicate FieldsBefore(xs: seq<string>, ys: seq<string>) {
    exists k :: 0 <= k <= |xs| && k < |ys| && xs[..k] == ys[..k] && (k == |xs| || FieldBefore(xs[k], ys[k]))
  }

  /** Section 11 of Semantic Versioning 2.0.0. */
  ghost predicate Precedes(v: SemVer, w: SemVer) {
    || v.major < w.major
    || (v.major == w.major && v.minor < w.minor)
    || (v.major == w.major && v.minor == w.minor && v.patch < w.patch)
    || (SameCore(v, w) && v.prerelease != [] && (w.prerelease == [] || FieldsBefore(v.prerelease, w.prerelease)))
  }

  predicate SameCore(v: SemVer, w: SemVer) {
    v.major == w.major && v.minor == w.minor && v.patch == w.patch
  }

  /** Section 9: numeric identifiers must not include leading zeros. */
  predicate NoLeadingZeros(xs: seq<string>) {
    forall x :: x in xs && Numeric(x) ==> x == "0" || x[0] != '0'
  }

  lemma {:induction false} TextBeforeIff(a: string, b: string)
    ensures CompareText(a, b) < 0 <==> TextBefore(a, b)
  {
    if a == "" {
      if b != "" { assert a[..0] == b[..0]; }
    } else if b != "" {
      if a[0] != b[0] {
        if a[0] < b[0] { assert a[..0] == b[..0]; }
      } else {
        TextBeforeIff(a[1..], b[1..]);
        TextBeforeTail(a, b);
      }
    }
  }

  lemma TextBeforeTail(a: string, b: string)
    requires a != "" && b != "" && a[0] == b[0]
    ensures TextBefore(a, b) <==> TextBefore(a[1..], b[1..])
  {
    if TextBefore(a, b) {
      var k :| 0 <= k <= |a| && k < |b| && a[..k] == b[..k] && (k == |a| || a[k] < b[k]);
      assert a[1..][..k - 1] == a[..k][1..] == b[..k][1..] == b[1..][..k - 1];
    }
    if TextBefore(a[1..], b[1..]) {
      var k :| 0 <= k <= |a[1..]| && k < |b[1..]| && a[1..][..k] == b[1..][..k] && (k == |a[1..]| || a[1..][k] < b[1..][k]);
      assert a[..k + 1] == [a[0]] + a[1..][..k] == b[..k + 1];
    }
  }

  /** Without leading zeros a number is written in one way. */
  lemma {:induction false} NumberInjective(a: string, b: string)
    requires Numeric(a) && Numeric(b) && Number(a) == Number(b)
    requires (a == "0" || a[0] != '0') && (b == "0" || b[0] != '0')
    ensures a == b
  {
    var m, n := |a| - 1, |b| - 1;
    if m > 0 { NumberPositive(a[..m]); }
    if n > 0 { NumberPositive(b[..n]); }
    if m > 0 && n > 0 {
      NumberInjective(a[..m], b[..n]);
    }
    assert a == a[..m] + [a[m]] && b == b[..n] + [b[n]];
  }

  lemma {:induction false} NumberPositive(a: string)
    requires Numeric(a) && a[0] != '0'
    ensures Number(a) > 0
  {
    if |a| > 1 { NumberPositive(a[..|a| - 1]); }
  }

  lemma FieldMatches(a: string, b: string)
    requires Numeric(a) ==> a == "0" || a[0] != '0'
    requires Numeric(b) ==> b == "0" || b[0] != '0'
    ensures CompareField(a, b) < 0 <==> FieldBefore(a, b)
    ensures CompareField(a, b) == 0 <==> a == b
  {
    TextBeforeIff(a, b);
    TextEquality(a, b);
    if Numeric(a) && Numeric(b) && Number(a) == Number(b) { NumberInjective(a, b); }
    hide CompareText, TextBefore, Numeric;
  }

  lemma {:induction false} FieldsMatch(xs: seq<string>, ys: seq<string>)
    requires NoLeadingZeros(xs) && NoLeadingZeros(ys)
    ensures CompareFields(xs, ys) < 0 <==> FieldsBefore(xs, ys)
    ensures CompareFields(xs, ys) == 0 <==> xs == ys
  {
    hide CompareField, FieldBefore, Numeric;
    if xs == [] {
      if ys != [] { assert xs[..0] == ys[..0]; }
    } else if ys != [] {
      assert xs == [xs[0]] + xs[1..] && ys == [ys[0]] + ys[1..];
      assert xs[0] in xs && ys[0] in ys;
      FieldMatches(xs[0], ys[0]);
      FieldOrders(xs[0], ys[0], "");
      FieldsMatch(xs[1..], ys[1..]);
      FieldsBeforeTail(xs, ys);
    }
  }

  lemma FieldsBeforeTail(xs: seq<string>, ys: seq<string>)
    requires xs != [] && ys != []
    ensures FieldsBefore(xs, ys) <==> (if xs[0] == ys[0] then FieldsBefore(xs[1..], ys[1..]) || FieldBefore(xs[0], ys[0]) else FieldBefore(xs[0], ys[0]))
  {
    hide FieldBefore;
    if FieldsBefore(xs, ys) {
      var k :| 0 <= k <= |xs| && k < |ys| && xs[..k] == ys[..k] && (k == |xs| || FieldBefore(xs[k], ys[k]));
      if k > 0 {
        assert xs[0] == xs[..k][0] == ys[0];
        assert xs[1..][..k - 1] == xs[..k][1..] == ys[..k][1..] == ys[1..][..k - 1];
      }
    }
    if FieldBefore(xs[0], ys[0]) {
      assert xs[..0] == ys[..0];
    } else if xs[0] == ys[0] && FieldsBefore(xs[1..], ys[1..]) {
      var k :| 0 <= k <= |xs[1..]| && k < |ys[1..]| && xs[1..][..k] == ys[1..][..k]
        && (k == |xs[1..]| || FieldBefore(xs[1..][k], ys[1..][k]));
      assert xs[..k + 1] == [xs[0]] + xs[1..][..k] == ys[..k + 1];
    }
  }

  /** On versions whose numeric identifiers have no leading zeros, comparing is
      precedence as the standard defines it, and only versions that differ in
      nothing but build metadata compare equal. */
  lemma MatchesStandard(v: SemVer, w: SemVer)
    requires NoLeadingZeros(v.prerelease) && NoLeadingZeros(w.prerelease)
    ensures Compare(v, w) < 0 <==> Precedes(v, w)
    ensures Compare(v, w) > 0 <==> Precedes(w, v)
    ensures Compare(v, w) == 0 <==> SameCore(v, w) && v.prerelease == w.prerelease
  {
    hide CompareFields, FieldsBefore, NoLeadingZeros;
    FieldsMatch(v.prerelease, w.prerelease);
    FieldsMatch(w.prerelease, v.prerelease);
    FieldsOrder(v.prerelease, w.prerelease, []);
  }

  /** A range accepts what does not precede its lower end and precedes its upper
      end, if it has one: the lower end itself, the upper end never. */
  lemma RangeIs(range: Range, v: SemVer)
    requires NoLeadingZeros(v.prerelease) && NoLeadingZeros(range.lower.prerelease)
    requires range.upper.Some? ==> NoLeadingZeros(range.upper.value.prerelease)
    ensures InRange(v, range) <==> !Precedes(v, range.lower) && (range.upper.Some? ==> Precedes(v, range.upper.value))
  {
    hide Compare, Precedes, NoLeadingZeros;
    MatchesStandard(v, range.lower);
    if range.upper.Some? { MatchesStandard(v, range.upper.value); }
  }

  /** What compares equal in general: numbers may be written with leading zeros,
      which parsing accepts. */
  lemma {:induction false} EqualIff(xs: seq<string>, ys: seq<string>)
    ensures CompareFields(xs, ys) == 0 <==>
      |xs| == |ys| && forall i :: 0 <= i < |xs| ==> SameField(xs[i], ys[i])
  {
    hide Numeric;
    if xs != [] && ys != [] {
      FieldOrders(xs[0], ys[0], "");
      TextEquality(xs[0], ys[0]);
      assert CompareField(xs[0], ys[0]) == 0 <==> SameField(xs[0], ys[0]);
      hide CompareField, SameField;
      EqualIff(xs[1..], ys[1..]);
      assert xs == [xs[0]] + xs[1..] && ys == [ys[0]] + ys[1..];
    }
  }

  predicate SameField(a: string, b: string) {
    a == b || (Numeric(a) && Numeric(b) && Number(a) == Number(b))
  }

  /** So 1.0.0-01 and 1.0.0-1 compare equal. */
  lemma LeadingZerosCompareEqual()
    ensures Compare(SemVer(1, 0, 0, ["01"], []), SemVer(1, 0, 0, ["1"], [])) == 0
  {
    assert "01"[..1] == "0" && "0"[..0] == "" && "1"[..0] == "";
    assert Number("0") == 0 && Number("01") == 1 && Number("1") == 1;
  }
}
