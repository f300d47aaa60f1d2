/** String search and trimming, with the semantics of the host language's
    `find`, `strip`, `lstrip` and `rstrip`. */
module Text {

  datatype Option<+T> = None | Some(value: T)

  lemma SliceSlice<T>(s: seq<T>, lo: nat, hi: nat, a: nat, b: nat)
    requires lo <= hi <= |s| && a <= b <= hi - lo
    ensures s[lo..hi][a..b] == s[lo + a..lo + b]
  {
    var t := s[lo..hi];
    assert forall k :: 0 <= k < b - a ==> t[a..b][k] == t[a + k] == s[lo + a + k];
  }

  lemma EmptyOrMember<T>(xs: seq<T>)
    ensures xs == [] || exists x :: x in xs
  {
    if xs != [] { assert xs[0] in xs; }
  }

  lemma Assoc<T>(a: seq<T>, b: seq<T>, c: seq<T>)
    ensures a + b + c == a + (b + c)
  {
  }

  // ---------------------------------------------------------------- search

  /** True when `pat` occurs in `s` at index `i`. */
  predicate At(s: string, pat: string, i: int) {
    0 <= i && i + |pat| <= |s| && s[i..i + |pat|] == pat
  }

  predicate Contains(s: string, pat: string) {
    exists i :: 0 <= i <= |s| && At(s, pat, i)
  }

  /** Index of the first occurrence at or after `i`, or -1. */
  function FindFrom(s: string, pat: string, i: nat): (r: int)
    ensures r == -1 || (i <= r && At(s, pat, r))
    ensures r == -1 ==> forall k :: i <= k ==> !At(s, pat, k)
    ensures r != -1 ==> forall k :: i <= k < r ==> !At(s, pat, k)
    decreases |s| + 1 - i
  {
    if i + |pat| > |s| then -1
    else if s[i..i + |pat|] == pat then i
    else FindFrom(s, pat, i + 1)
  }

  function Find(s: string, pat: string): (r: int)
    ensures r == -1 || 0 <= r <= |s| - |pat|
    ensures r != -1 <==> Contains(s, pat)
  {
    var r := FindFrom(s, pat, 0);
    assert r != -1 ==> At(s, pat, r);
    r
  }

  /** The first occurrence is characterised by being one and having none before it. */
  lemma FindIs(s: string, pat: string, i: nat)
    requires At(s, pat, i) && forall k :: 0 <= k < i ==> !At(s, pat, k)
    ensures Find(s, pat) == i
  {
  }

  /** No occurrence of `pat` can straddle into text whose first character `pat`
      only carries, if at all, in front. */
  lemma FindSkips(a: string, b: string, pat: string)
    requires |pat| > 0 && b != [] && b[0] !in pat[1..]
    requires !Contains(a, pat)
    ensures Find(a + b, pat) == if Find(b, pat) == -1 then -1 else |a| + Find(b, pat)
  {
    var s := a + b;
    forall k | 0 <= k < |a| ensures !At(s, pat, k) {
      AtPrefix(a, b, pat, k);
      if |a| < k + |pat| <= |s| {
        assert s[k..k + |pat|][|a| - k] == b[0] != pat[1..][|a| - k - 1] == pat[|a| - k];
      }
    }
    forall k | k >= |a| ensures At(s, pat, k) <==> At(b, pat, k - |a|) {
      if k + |pat| <= |s| {
        assert s[k..k + |pat|] == b[k - |a|..k - |a| + |pat|];
      }
    }
    var r := Find(b, pat);
    if r == -1 {
      forall k | 0 <= k <= |s| ensures !At(s, pat, k) {
      }
    } else {
      assert At(s, pat, |a| + r);
      forall k | 0 <= k < |a| + r ensures !At(s, pat, k) {
      }
      FindIs(s, pat, |a| + r);
    }
  }

  /** An occurrence lying inside a prefix is an occurrence of that prefix. */
  lemma AtPrefix(a: string, b: string, pat: string, i: int)
    ensures i + |pat| <= |a| ==> (At(a + b, pat, i) <==> At(a, pat, i))
  {
    if 0 <= i && i + |pat| <= |a| {
      assert (a + b)[i..i + |pat|] == a[i..i + |pat|];
    }
  }

  lemma AtShift(a: string, b: string, pat: string, i: int)
    requires i >= 0
    ensures At(a + b, pat, |a| + i) <==> At(b, pat, i)
  {
    if i + |pat| <= |b| {
      assert (a + b)[|a| + i..|a| + i + |pat|] == b[i..i + |pat|];
    }
  }

  lemma SubstringContains(s: string, lo: nat, hi: nat, pat: string)
    requires lo <= hi <= |s| && Contains(s[lo..hi], pat)
    ensures Contains(s, pat)
    ensures exists k :: lo <= k && k + |pat| <= hi && At(s, pat, k)
  {
    var i :| 0 <= i <= hi - lo && At(s[lo..hi], pat, i);
    SliceSlice(s, lo, hi, i, i + |pat|);
    assert At(s, pat, lo + i);
  }

  // -------------------------------------------------------------- trimming

  /** Drops the leading characters that satisfy `p`. */
  function StripLeft(s: string, p: char -> bool): (r: string)
    ensures |r| <= |s| && r == s[|s| - |r|..]
    ensures r == [] || !p(r[0])
    ensures forall k :: 0 <= k < |s| - |r| ==> p(s[k])
  {
    if s == [] || !p(s[0]) then s else StripLeft(s[1..], p)
  }

  /** Drops the trailing characters that satisfy `p`. */
  function StripRight(s: string, p: char -> bool): (r: string)
    ensures |r| <= |s| && r == s[..|r|]
    ensures r == [] || !p(r[|r| - 1])
    ensures forall k :: |r| <= k < |s| ==> p(s[k])
  {
    if s == [] || !p(s[|s| - 1]) then s else StripRight(s[..|s| - 1], p)
  }

  function Strip(s: string, p: char -> bool): string {
    StripRight(StripLeft(s, p), p)
  }

  /** A string with no strippable character at either end is left alone. */
  predicate Trimmed(s: string, p: char -> bool) {
    s == [] || (!p(s[0]) && !p(s[|s| - 1]))
  }

  lemma StripTrims(s: string, p: char -> bool)
    ensures Trimmed(Strip(s, p), p)
    ensures Trimmed(s, p) ==> Strip(s, p) == s
  {
  }

  /** Stripping yields a slice all of whose surroundings are strippable. */
  lemma StripSlice(s: string, p: char -> bool) returns (lo: nat, hi: nat)
    ensures lo <= hi <= |s| && Strip(s, p) == s[lo..hi]
    ensures forall k :: 0 <= k < lo || hi <= k < |s| ==> p(s[k])
  {
    var l := StripLeft(s, p);
    var r := StripRight(l, p);
    lo, hi := |s| - |l|, |s| - |l| + |r|;
    assert s[lo..hi] == l[..|r|];
    forall k | hi <= k < |s| ensures p(s[k]) {
      assert s[k] == l[k - lo];
    }
  }

  /** A slice with strippable surroundings and clean ends is what stripping gives. */
  lemma StripUnique(s: string, p: char -> bool, lo: nat, hi: nat)
    requires lo < hi <= |s| && !p(s[lo]) && !p(s[hi - 1])
    requires forall k :: 0 <= k < lo || hi <= k < |s| ==> p(s[k])
    ensures Strip(s, p) == s[lo..hi]
  {
    hide Strip, StripLeft, StripRight;
    var a, b := StripSlice(s, p);
    StripTrims(s, p);
    var r := s[a..b];
    assert a <= lo < hi <= b;
    assert r[0] == s[a] && r[b - a - 1] == s[b - 1];
  }

  /** Everything between two characters that must stay, stays. */
  lemma StripSpan(s: string, p: char -> bool, i: nat, j: nat)
    requires i <= j < |s| && !p(s[i]) && !p(s[j])
    ensures |Strip(s, p)| > j - i
  {
    var lo, hi := StripSlice(s, p);
  }

  lemma {:induction false} StripAll(s: string, p: char -> bool)
    requires forall k :: 0 <= k < |s| ==> p(s[k])
    ensures Strip(s, p) == ""
  {
    if s != [] { StripAll(s[1..], p); }
  }

  predicate IsNewline(c: char) { c == '\n' }

  /** White space as `str.isspace`, `str.strip` and the pattern class `\s` see it. */
  predicate IsSpace(c: char) {
    || '\t' <= c <= '\r' || '\U{00001c}' <= c <= ' '
    || c == '\U{000085}' || c == '\U{0000a0}' || c == '\U{001680}'
    || '\U{002000}' <= c <= '\U{00200a}' || c == '\U{002028}' || c == '\U{002029}'
    || c == '\U{00202f}' || c == '\U{00205f}' || c == '\U{003000}'
  }

  /** Characters at which `str.splitlines` breaks a line. */
  predicate IsLineBreak(c: char) {
    || '\n' <= c <= '\r' || '\U{00001c}' <= c <= '\U{00001e}'
    || c == '\U{000085}' || c == '\U{002028}' || c == '\U{002029}'
  }

  /** `\s*\n` at the start of `t`, as far as it reaches: what follows its last
      line feed. */
  function BehindBlank(t: string): (r: Option<string>)
    ensures r.Some? ==> |r.value| < |t|
  {
    if t == "" || !IsSpace(t[0]) then None
    else
      match BehindBlank(t[1..])
      case Some(rest) => Some(rest)
      case None => if t[0] == '\n' then Some(t[1..]) else None
  }
}
