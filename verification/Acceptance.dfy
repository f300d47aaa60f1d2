/** The rewriting of acceptance records: inside a human_result block, the status
    "accepted" becomes "passed", and nothing else changes. */
module Acceptance {
  import opened Text
  import opened Lines

  // ------------------------------------------------------------------ lines

  /** What `_line_ending` takes for the ending; other line breaks stay in the body. */
  function EndingLength(line: string): (n: nat)
    ensures n <= |line|
  {
    var m := |line|;
    if m >= 2 && line[m - 2] == '\r' && line[m - 1] == '\n' then 2
    else if m >= 1 && (line[m - 1] == '\n' || line[m - 1] == '\r') then 1
    else 0
  }

  function Body(line: string): string { line[..|line| - EndingLength(line)] }
  function Ending(line: string): string { line[|line| - EndingLength(line)..] }

  // --------------------------------------------------------------- patterns

  function SkipWhile(s: string, i: nat, p: char -> bool): (r: nat)
    requires i <= |s|
    ensures i <= r <= |s| && (r < |s| ==> !p(s[r]))
    ensures forall k :: i <= k < r ==> p(s[k])
    decreases |s| - i
  {
    if i < |s| && p(s[i]) then SkipWhile(s, i + 1, p) else i
  }

  predicate IsBlank(c: char) { c == ' ' }

  /** Behind `key`, white space, a colon and white space again. */
  function BehindKey(s: string, i: nat, key: string): (r: Option<nat>)
    requires i <= |s|
    ensures r.Some? ==> i + |key| < r.value <= |s|
  {
    if !At(s, key, i) then None
    else
      var j := SkipWhile(s, i + |key|, IsSpace);
      if j < |s| && s[j] == ':' then Some(SkipWhile(s, j + 1, IsSpace)) else None
  }

  /** End of line, or a comment. */
  predicate RestIsComment(s: string, i: nat) {
    i <= |s| && var j := SkipWhile(s, i, IsSpace); j == |s| || s[j] == '#'
  }

  function Indentation(body: string): (n: nat)
    ensures n <= |body|
  {
    SkipWhile(body, 0, IsBlank)
  }

  /** The indentation, when the line opens a human_result block. */
  function BlockIndent(body: string): Option<nat> {
    var i := Indentation(body);
    var j := BehindKey(body, i, "human_result");
    if j.Some? && RestIsComment(body, j.value) then Some(i) else None
  }

  /** Where "accepted" stands, quoted or not, with no more than a comment behind. */
  function AcceptedAt(body: string, j: nat): (r: Option<nat>)
    requires j <= |body|
    ensures r.Some? ==> j <= r.value <= j + 1 && At(body, "accepted", r.value)
  {
    var quoted := j < |body| && (body[j] == '"' || body[j] == '\'');
    var p, q := j + (if quoted then 1 else 0), j + (if quoted then 10 else 8);
    if At(body, "accepted", p) && (!quoted || (q <= |body| && body[q - 1] == body[j])) && RestIsComment(body, q)
    then Some(p) else None
  }

  /** Where "accepted" stands, when the line gives that status. */
  function StatusAt(body: string): (r: Option<nat>)
    ensures r.Some? ==> 0 < r.value && At(body, "accepted", r.value)
  {
    var j := BehindKey(body, SkipWhile(body, 0, IsSpace), "status");
    if j.None? then None else AcceptedAt(body, j.value)
  }

  predicate Skipped(body: string) {
    var i := SkipWhile(body, 0, IsSpace);
    i == |body| || body[i] == '#'
  }

  // --------------------------------------------------- what the patterns match

  predicate Spaces(s: string) { forall c :: c in s ==> IsSpace(c) }

  /** White space, and then nothing or a comment. */
  ghost predicate Trailing(s: string) {
    exists n: nat :: n <= |s| && Spaces(s[..n]) && (n == |s| || s[n] == '#')
  }

  lemma {:induction false} SkipIs(s: string, i: nat, p: char -> bool, j: nat)
    requires i <= j <= |s| && (forall k :: i <= k < j ==> p(s[k])) && (j < |s| ==> !p(s[j]))
    ensures SkipWhile(s, i, p) == j
    decreases j - i
  {
    if i < j { SkipIs(s, i + 1, p, j); }
  }

  /** Skipping the white space `x` in front of `rest`. */
  lemma SkipPast(s: string, i: nat, x: string, rest: string)
    requires i <= |s| && s[i..] == x + rest && Spaces(x) && (rest != "" ==> !IsSpace(rest[0]))
    ensures SkipWhile(s, i, IsSpace) == i + |x| && i + |x| <= |s| && s[i + |x|..] == rest
  {
    hide IsSpace;
    forall k | i <= k < i + |x| ensures IsSpace(s[k]) {
      assert s[k] == s[i..][k - i] == x[k - i] && x[k - i] in x;
    }
    assert i + |x| < |s| ==> s[i + |x|] == s[i..][|x|] == rest[0];
    SkipIs(s, i, IsSpace, i + |x|);
  }

  lemma Skipping(s: string, i: nat)
    requires i <= |s|
    ensures var j := SkipWhile(s, i, IsSpace);
      s[i..] == s[i..j] + s[j..] && Spaces(s[i..j]) && (s[j..] != "" ==> !IsSpace(s[j..][0]))
  {
    hide IsSpace;
    var j := SkipWhile(s, i, IsSpace);
    forall c | c in s[i..j] ensures IsSpace(c) {
      var k :| 0 <= k < j - i && s[i..j][k] == c;
      assert s[i + k] == c;
    }
  }

  lemma AtHere(s: string, i: nat, key: string, rest: string)
    requires i <= |s| && s[i..] == key + rest
    ensures At(s, key, i) && i + |key| <= |s| && s[i + |key|..] == rest
  {
    assert s[i..i + |key|] == s[i..][..|key|];
    assert s[i + |key|..] == s[i..][|key|..];
  }

  lemma TrailingIff(s: string, i: nat)
    requires i <= |s|
    ensures RestIsComment(s, i) <==> Trailing(s[i..])
  {
    hide IsSpace;
    var t, j := s[i..], SkipWhile(s, i, IsSpace);
    Skipping(s, i);
    if RestIsComment(s, i) {
      assert t[..j - i] == s[i..j];
      assert j < |s| ==> t[j - i] == s[j];
      assert Spaces(t[..j - i]);
    }
    if n: nat :| n <= |t| && Spaces(t[..n]) && (n == |t| || t[n] == '#') {
      assert t == t[..n] + t[n..];
      NotSpaces();
      SkipPast(s, i, t[..n], t[n..]);
    }
  }

  /** A colon with white space around it, in front of `rest`. */
  lemma ColonPast(s: string, k: nat, b: string, c: string, rest: string)
    requires k <= |s| && s[k..] == b + (":" + (c + rest))
    requires Spaces(b) && Spaces(c) && (rest != "" ==> !IsSpace(rest[0]))
    ensures var j := k + |b|;
      && SkipWhile(s, k, IsSpace) == j && j < |s| && s[j] == ':'
      && SkipWhile(s, j + 1, IsSpace) == j + 1 + |c| && j + 1 + |c| <= |s| && s[j + 1 + |c|..] == rest
  {
    hide IsSpace, Spaces, SkipWhile, At;
    NotSpaces();
    var behind := c + rest;
    var colon := ":" + behind;
    SkipPast(s, k, b, colon);
    var j := k + |b|;
    assert s[j] == s[j..][0] == ':';
    AtHere(s, j, ":", behind);
    SkipPast(s, j + 1, c, rest);
  }

  /** The key with that colon. */
  lemma KeyPast(s: string, i: nat, key: string, b: string, c: string, rest: string)
    requires i <= |s| && s[i..] == key + (b + (":" + (c + rest)))
    requires Spaces(b) && Spaces(c) && (rest != "" ==> !IsSpace(rest[0]))
    ensures var r := i + |key| + |b| + 1 + |c|;
      BehindKey(s, i, key) == Some(r) && r <= |s| && s[r..] == rest
  {
    hide IsSpace, Spaces, SkipWhile;
    AtHere(s, i, key, b + (":" + (c + rest)));
    ColonPast(s, i + |key|, b, c, rest);
    hide At;
  }

  /** Where the key, its colon and what follows stand. */
  lemma KeyPlaces(s: string, i: nat, key: string) returns (j: nat)
    requires i <= |s| && BehindKey(s, i, key).Some?
    ensures i + |key| <= j < |s| && j == SkipWhile(s, i + |key|, IsSpace) && s[j] == ':' && s[i..i + |key|] == key
    ensures BehindKey(s, i, key) == Some(SkipWhile(s, j + 1, IsSpace))
  {
    hide IsSpace, SkipWhile;
    j := SkipWhile(s, i + |key|, IsSpace);
  }

  lemma ColonSplit(s: string, k: nat, j: nat, r: nat)
    requires k <= j < r <= |s| && j == SkipWhile(s, k, IsSpace) && s[j] == ':' && r == SkipWhile(s, j + 1, IsSpace)
    ensures s[k..] == s[k..j] + (":" + (s[j + 1..r] + s[r..]))
    ensures Spaces(s[k..j]) && Spaces(s[j + 1..r]) && (s[r..] != "" ==> !IsSpace(s[r..][0]))
  {
    hide *;
    Skipping(s, k);
    Skipping(s, j + 1);
    Cut(s, j, j + 1);
    OneChar(s, j);
  }

  lemma KeySplit(s: string, i: nat, key: string) returns (b: string, c: string, rest: string)
    requires i <= |s| && BehindKey(s, i, key).Some?
    ensures s[i..] == key + (b + (":" + (c + rest)))
    ensures Spaces(b) && Spaces(c) && (rest != "" ==> !IsSpace(rest[0])) && rest == s[BehindKey(s, i, key).value..]
  {
    hide *;
    var j := KeyPlaces(s, i, key);
    var k, r := i + |key|, BehindKey(s, i, key).value;
    b, c, rest := s[k..j], s[j + 1..r], s[r..];
    ColonSplit(s, k, j, r);
    Cut(s, i, k);
  }

  lemma OneChar(s: string, j: nat)
    requires j < |s| && s[j] == ':'
    ensures s[j..j + 1] == ":"
  {
  }

  lemma Cut(s: string, i: nat, j: nat)
    requires i <= j <= |s|
    ensures s[i..] == s[i..j] + s[j..]
  {
  }

  /** The status line, for any white space and either quote or none. */
  function StatusText(a: string, b: string, c: string, q: string, d: string): string {
    a + ("status" + (b + (":" + (c + (q + ("accepted" + (q + d)))))))
  }

  predicate Quote(q: string) { q == "" || q == "\"" || q == "'" }

  lemma AcceptedHere(s: string, r: nat, q: string, d: string)
    requires r <= |s| && s[r..] == q + ("accepted" + (q + d)) && Quote(q) && Trailing(d)
    ensures AcceptedAt(s, r) == Some(r + |q|)
  {
    hide IsSpace, Spaces, Trailing, RestIsComment;
    var behind := q + d;
    var word := "accepted" + behind;
    assert "accepted"[0] == 'a';
    AtHere(s, r, q, word);
    AtHere(s, r + |q|, "accepted", behind);
    AtHere(s, r + |q| + 8, q, d);
    assert s[r] == s[r..][0];
    assert q != "" ==> s[r + 9] == s[r + |q| + 8..][0];
    TrailingIff(s, r + 2 * |q| + 8);
  }

  lemma AcceptedIs(s: string, r: nat) returns (q: string, d: string)
    requires r <= |s| && AcceptedAt(s, r).Some?
    ensures s[r..] == q + ("accepted" + (q + d)) && Quote(q) && Trailing(d) && AcceptedAt(s, r) == Some(r + |q|)
  {
    hide IsSpace, Spaces, Trailing, RestIsComment;
    var quoted := r < |s| && (s[r] == '"' || s[r] == '\'');
    q := if quoted then [s[r]] else "";
    var p := r + |q|;
    d := s[p + 8 + |q|..];
    assert s[p..p + 8] == "accepted";
    assert s[r..p] == q && s[p + 8..p + 8 + |q|] == q;
    Cut(s, r, p);
    Cut(s, p, p + 8);
    Cut(s, p + 8, p + 8 + |q|);
    TrailingIff(s, p + 8 + |q|);
  }

  lemma FirstOfStatus(x: string, q: string, y: string)
    requires Quote(q)
    ensures ("status" + x)[0] == 's' && !IsSpace('s') && |q + ("accepted" + y)| > 0 && !IsSpace((q + ("accepted" + y))[0])
  {
    hide IsSpace;
    NotSpaces();
    assert "status"[0] == 's' && "accepted"[0] == 'a';
  }

  lemma StatusFrom(s: string, i: nat, r: nat)
    requires i <= |s| && r <= |s| && SkipWhile(s, 0, IsSpace) == i && BehindKey(s, i, "status") == Some(r)
    ensures StatusAt(s) == AcceptedAt(s, r)
  {
    hide IsSpace, SkipWhile, BehindKey, AcceptedAt;
  }

  /** Such a line has its "accepted" found, ... */
  lemma StatusFound(a: string, b: string, c: string, q: string, d: string)
    requires Spaces(a) && Spaces(b) && Spaces(c) && Quote(q) && Trailing(d)
    ensures StatusAt(StatusText(a, b, c, q, d)) == Some(|a| + 6 + |b| + 1 + |c| + |q|)
  {
    hide IsSpace, Spaces, Trailing, AcceptedAt, BehindKey, SkipWhile, StatusAt, Quote;
    var rest := q + ("accepted" + (q + d));
    var colon := b + (":" + (c + rest));
    var keyed := "status" + colon;
    var s := a + keyed;
    assert s[0..] == s;
    FirstOfStatus(colon, q, q + d);
    SkipPast(s, 0, a, keyed);
    KeyPast(s, |a|, "status", b, c, rest);
    var r := |a| + 6 + |b| + 1 + |c|;
    AcceptedHere(s, r, q, d);
    StatusFrom(s, |a|, r);
  }

  /** ... and there is no other such line. */
  lemma StatusLineIs(body: string) returns (a: string, b: string, c: string, q: string, d: string)
    requires StatusAt(body).Some?
    ensures body == StatusText(a, b, c, q, d) && Spaces(a) && Spaces(b) && Spaces(c) && Quote(q) && Trailing(d)
    ensures StatusAt(body) == Some(|a| + 6 + |b| + 1 + |c| + |q|)
  {
    hide IsSpace, Spaces, Trailing, AcceptedAt, BehindKey, SkipWhile;
    var i := SkipWhile(body, 0, IsSpace);
    Skipping(body, 0);
    a := body[..i];
    assert body[0..] == body && body[0..i] == a;
    var rest;
    b, c, rest := KeySplit(body, i, "status");
    var j := BehindKey(body, i, "status").value;
    q, d := AcceptedIs(body, j);
    assert |body| == |a| + 6 + |b| + 1 + |c| + |rest|;
  }

  /** A line opens a block exactly when it is blanks, the key, a colon, and no more
      than a comment; its indentation is the number of the blanks. */
  lemma BlockOpens(n: nat, b: string, d: string)
    requires Spaces(b) && Trailing(d)
    ensures BlockIndent(seq(n, _ => ' ') + ("human_result" + (b + (":" + d)))) == Some(n)
  {
    hide IsSpace, Spaces, BehindKey, SkipWhile;
    NotSpaces();
    var a := seq(n, _ => ' ');
    var m: nat :| m <= |d| && Spaces(d[..m]) && (m == |d| || d[m] == '#');
    var rest := d[m..];
    assert d == d[..m] + rest;
    var keyed := "human_result" + (b + (":" + d));
    var s := a + keyed;
    assert "human_result"[0] == 'h';
    assert keyed == "human_result" + (b + (":" + (d[..m] + rest)));
    BlanksInFront(n, keyed);
    KeyPast(s, n, "human_result", b, d[..m], rest);
    JustComment(rest);
    TrailingIff(s, n + 12 + |b| + 1 + m);
  }

  lemma BlanksInFront(n: nat, keyed: string)
    requires keyed != "" && keyed[0] != ' '
    ensures var s := seq(n, _ => ' ') + keyed;
      Indentation(s) == n && s[n..] == keyed
  {
    var s := seq(n, _ => ' ') + keyed;
    SkipIs(s, 0, IsBlank, n);
  }

  lemma JustComment(rest: string)
    requires rest == "" || rest[0] == '#'
    ensures Trailing(rest)
  {
    assert rest[..0] == "";
    NoSpaces();
  }

  lemma NoSpaces()
    ensures Spaces("")
  {
  }

  lemma BlockLineIs(body: string) returns (b: string, d: string)
    requires BlockIndent(body).Some?
    ensures Spaces(b) && Trailing(d)
    ensures body == seq(BlockIndent(body).value, _ => ' ') + ("human_result" + (b + (":" + d)))
  {
    hide IsSpace;
    var n := Indentation(body);
    var j := BehindKey(body, n, "human_result").value;
    var c, rest;
    b, c, rest := KeySplit(body, n, "human_result");
    d := c + rest;
    assert body[..n] == seq(n, _ => ' ');
    assert body == body[..n] + body[n..];
    TrailingIff(body, j);
    TrailingMore(c, rest);
  }

  lemma TrailingMore(c: string, rest: string)
    requires Spaces(c) && Trailing(rest)
    ensures Trailing(c + rest)
  {
    hide IsSpace;
    var n: nat :| n <= |rest| && Spaces(rest[..n]) && (n == |rest| || rest[n] == '#');
    var d := c + rest;
    assert d[..|c| + n] == c + rest[..n];
    assert Spaces(d[..|c| + n]);
  }

  /** A line that is passed over is white space, or a comment behind it. */
  lemma SkippedIff(body: string)
    ensures Skipped(body) <==> Trailing(body)
  {
    TrailingIff(body, 0);
    assert body[0..] == body;
  }

  /** The ending of a line is a line feed, a carriage return, or both; if it is
      empty the line has none of these at its end. */
  lemma EndingIs(line: string)
    ensures line == Body(line) + Ending(line)
    ensures Ending(line) == "\r\n" || Ending(line) == "\n" || Ending(line) == "\r" || Ending(line) == ""
    ensures Ending(line) == "" ==> line == "" || (line[|line| - 1] != '\n' && line[|line| - 1] != '\r')
    ensures Ending(line) == "\n" ==> |line| < 2 || line[|line| - 2] != '\r'
  {
  }

  // ------------------------------------------------------------ the rewriting

  /** The state behind a line: the indentation of the block it lies in, if any. */
  function After(state: Option<nat>, line: string): Option<nat> {
    var body := Body(line);
    if BlockIndent(body).Some? then BlockIndent(body)
    else if state.Some? && !Skipped(body) && Indentation(body) <= state.value then None
    else state
  }

  predicate Replaces(state: Option<nat>, line: string) {
    var body := Body(line);
    && BlockIndent(body).None? && state.Some? && !Skipped(body) && Indentation(body) > state.value
    && StatusAt(body).Some?
  }

  function Passed(line: string): string
    requires StatusAt(Body(line)).Some?
  {
    var p := StatusAt(Body(line)).value;
    line[..p] + "passed" + line[p + 8..]
  }

  function Rewritten(state: Option<nat>, line: string): string {
    if Replaces(state, line) then Passed(line) else line
  }

  function RewriteAll(state: Option<nat>, lines: seq<string>): (r: seq<string>)
    ensures |r| == |lines|
    decreases lines
  {
    if lines == [] then []
    else [Rewritten(state, lines[0])] + RewriteAll(After(state, lines[0]), lines[1..])
  }

  function Replacements(state: Option<nat>, lines: seq<string>): nat
    decreases lines
  {
    if lines == [] then 0
    else (if Replaces(state, lines[0]) then 1 else 0) + Replacements(After(state, lines[0]), lines[1..])
  }

  function Migrated(text: string): string { Join(RewriteAll(None, SplitLines(text))) }
  function Count(text: string): nat { Replacements(None, SplitLines(text)) }

  /** `_migrate_acceptance_text`: one pass over the lines, keeping the indentation
      of the open block. */
  method MigrateAcceptanceText(text: string) returns (migrated: string, replacements: nat)
    ensures migrated == Migrated(text) && replacements == Count(text)
  {
    hide *;
    var lines := SplitLines(text);
    var open: Option<nat> := None;
    migrated, replacements := "", 0;
    assert lines[0..] == lines;
    for i := 0 to |lines|
      invariant migrated + Join(RewriteAll(open, lines[i..])) == Join(RewriteAll(None, lines))
      invariant replacements + Replacements(open, lines[i..]) == Replacements(None, lines)
    {
      ghost var was := open;
      var line := lines[i];
      var body, ending := Body(line), Ending(line);
      BodyAndEnding(line);
      LineCases(was, line);
      var indent := BlockIndent(body);
      if indent.Some? {
        open := indent;
      } else if open.Some? && !Skipped(body) {
        if Indentation(body) <= open.value {
          open := None;
        } else {
          var p := StatusAt(body);
          if p.Some? {
            AtBounds(body, p.value);
            BodyCut(line, p.value);
            body := body[..p.value] + "passed" + body[p.value + 8..];
            replacements := replacements + 1;
          }
        }
      }
      assert body + ending == Rewritten(was, line);
      OneLine(was, lines[i..], migrated);
      migrated := migrated + (body + ending);
      assert lines[i..][1..] == lines[i + 1..];
    }
    assert lines[|lines|..] == [];
    NoLines();
    Whole(text);
  }

  lemma Whole(text: string)
    ensures Migrated(text) == Join(RewriteAll(None, SplitLines(text)))
    ensures Count(text) == Replacements(None, SplitLines(text))
  {
  }

  lemma NoLines()
    ensures forall state :: RewriteAll(state, []) == [] && Replacements(state, []) == 0
    ensures Join([]) == ""
  {
  }

  lemma BodyAndEnding(line: string)
    ensures Body(line) + Ending(line) == line
  {
  }

  lemma AtBounds(body: string, p: nat)
    requires At(body, "accepted", p)
    ensures p + 8 <= |body|
  {
  }

  /** The branches the loop takes, in terms of what each line does. */
  lemma LineCases(state: Option<nat>, line: string)
    ensures var body := Body(line);
      if BlockIndent(body).Some? then After(state, line) == BlockIndent(body) && Rewritten(state, line) == line
      else if state.None? || Skipped(body) then After(state, line) == state && Rewritten(state, line) == line
      else if Indentation(body) <= state.value then After(state, line) == None && Rewritten(state, line) == line
      else After(state, line) == state && if StatusAt(body).Some? then Rewritten(state, line) == Passed(line) else Rewritten(state, line) == line
    ensures Replaces(state, line) <==> var body := Body(line);
      BlockIndent(body).None? && state.Some? && !Skipped(body) && Indentation(body) > state.value && StatusAt(body).Some?
    ensures var body := Body(line);
      StatusAt(body).Some? ==> At(body, "accepted", StatusAt(body).value) && StatusAt(body).value + 8 <= |line|
    ensures var body := Body(line);
      StatusAt(body).Some? ==> Passed(line) == line[..StatusAt(body).value] + "passed" + line[StatusAt(body).value + 8..]
  {
    hide BlockIndent, StatusAt, Skipped, Indentation;
  }

  lemma BodyCut(line: string, p: nat)
    requires At(Body(line), "accepted", p)
    ensures Body(line)[..p] + "passed" + Body(line)[p + 8..] + Ending(line) == line[..p] + "passed" + line[p + 8..]
  {
    var n := |line| - EndingLength(line);
    assert line[p + 8..] == line[p + 8..n] + line[n..];
    assert Body(line)[p + 8..] == line[p + 8..n];
    Assoc(line[..p] + "passed", line[p + 8..n], line[n..]);
  }

  lemma OneLine(state: Option<nat>, lines: seq<string>, done: string)
    requires lines != []
    ensures done + Join(RewriteAll(state, lines)) ==
      done + Rewritten(state, lines[0]) + Join(RewriteAll(After(state, lines[0]), lines[1..]))
    ensures Replacements(state, lines) ==
      (if Replaces(state, lines[0]) then 1 else 0) + Replacements(After(state, lines[0]), lines[1..])
  {
    hide Rewritten, After, Replaces;
    var out := RewriteAll(state, lines);
    assert out[1..] == RewriteAll(After(state, lines[0]), lines[1..]);
    Assoc(done, out[0], Join(out[1..]));
  }

  // ------------------------------------------------------ one rewritten line

  /** Where skipping stops depends on the characters up to there only. */
  lemma SkipAgrees(s: string, t: string, i: nat, p: char -> bool)
    requires i <= |s| && i <= |t|
    requires var r := SkipWhile(s, i, p); r < |t| && s[..r] == t[..r] && !p(t[r])
    ensures SkipWhile(t, i, p) == SkipWhile(s, i, p)
  {
    var r, q := SkipWhile(s, i, p), SkipWhile(t, i, p);
    assert forall k :: i <= k < r ==> s[k] == s[..r][k] == t[k];
  }

  lemma KeyAgrees(s: string, t: string, i: nat, key: string)
    requires i <= |s| && i <= |t| && BehindKey(s, i, key).Some?
    requires var j := BehindKey(s, i, key).value; j < |t| && s[..j] == t[..j] && !IsSpace(t[j])
    ensures BehindKey(t, i, key) == BehindKey(s, i, key)
  {
    hide IsSpace, At;
    var j := BehindKey(s, i, key).value;
    var n := i + |key|;
    var c := SkipWhile(s, n, IsSpace);
    AtAgrees(s, t, i, key, j);
    assert s[c] == s[..j][c] == t[c];
    assert s[..c] == s[..j][..c] == t[..j][..c] == t[..c];
    NotSpaces();
    SkipAgrees(s, t, n, IsSpace);
    SkipAgrees(s, t, c + 1, IsSpace);
  }

  lemma AtAgrees(s: string, t: string, i: nat, key: string, j: nat)
    requires i + |key| <= j <= |s| && j <= |t| && s[..j] == t[..j]
    ensures At(s, key, i) <==> At(t, key, i)
  {
    var n := i + |key|;
    assert s[i..n] == s[..j][i..n] == t[..j][i..n] == t[i..n];
  }

  lemma NotSpaces()
    ensures !IsSpace(':') && !IsSpace('p') && !IsSpace('s') && !IsSpace('"') && !IsSpace('\'') && !IsSpace('h') && IsSpace(' ')
    ensures !IsSpace('#') && !IsSpace('a')
  {
  }

  lemma StatusParts(body: string) returns (i: nat, j: nat)
    requires StatusAt(body).Some?
    ensures i == SkipWhile(body, 0, IsSpace) && BehindKey(body, i, "status") == Some(j)
    ensures i + 6 < j <= StatusAt(body).value <= j + 1 && At(body, "status", i)
    ensures StatusAt(body).value == j + 1 <==> body[j] == '"' || body[j] == '\''
    ensures At(body, "accepted", StatusAt(body).value)
  {
    hide IsSpace;
    i := SkipWhile(body, 0, IsSpace);
    j := BehindKey(body, i, "status").value;
    assert "accepted"[0] == 'a';
    assert StatusAt(body).value == j ==> body[j..j + 8][0] == 'a';
  }

  /** The new body: same key, same indentation, no status to replace any more. */
  lemma PassedBody(body: string, passed: string)
    requires StatusAt(body).Some?
    requires var p := StatusAt(body).value; passed == body[..p] + "passed" + body[p + 8..]
    ensures StatusAt(passed).None? && BlockIndent(passed).None?
    ensures Skipped(passed) == Skipped(body) && Indentation(passed) == Indentation(body)
  {
    hide IsSpace;
    NotSpaces();
    var p := StatusAt(body).value;
    var i, j := StatusParts(body);
    assert passed[..p] == body[..p] && passed[p] == "passed"[0] == 'p';
    assert forall k :: 0 <= k < p ==> passed[k] == passed[..p][k] == body[k];
    assert body[i] == body[i..i + 6][0] == "status"[0] == 's';
    assert passed[..j] == body[..p][..j] == body[..j];
    assert passed[..i] == body[..p][..i] == body[..i];
    SkipAgrees(body, passed, 0, IsSpace);
    KeyAgrees(body, passed, i, "status");
    NoStatus(passed, i, j, p);
    SameIndentation(body, passed, i);
    NotBlock(passed, i);
  }

  lemma FirstChar(s: string, key: string, i: nat, c: char)
    requires key != "" && key[0] == c
    ensures At(s, key, i) ==> i < |s| && s[i] == c
  {
    if At(s, key, i) {
      assert s[i] == s[i..i + |key|][0];
    }
  }

  lemma NoStatus(passed: string, i: nat, j: nat, p: nat)
    requires i == SkipWhile(passed, 0, IsSpace) && BehindKey(passed, i, "status") == Some(j)
    requires j <= p <= j + 1 && p < |passed| && passed[p] == 'p'
    requires p == j + 1 <==> passed[j] == '"' || passed[j] == '\''
    ensures StatusAt(passed).None?
  {
    hide IsSpace, RestIsComment, BehindKey;
    FirstChar(passed, "accepted", p, 'a');
    hide At;
  }

  lemma SameIndentation(body: string, passed: string, i: nat)
    requires i < |body| && i < |passed| && body[..i] == passed[..i] && body[i] == passed[i] == 's'
    requires i == SkipWhile(body, 0, IsSpace)
    ensures Indentation(passed) == Indentation(body)
  {
    hide IsSpace;
    var r := Indentation(body);
    assert forall k :: 0 <= k < i ==> body[k] == body[..i][k] == passed[k];
    assert body[..r] == body[..i][..r] == passed[..i][..r] == passed[..r];
    SkipAgrees(body, passed, 0, IsBlank);
  }

  lemma NotBlock(passed: string, i: nat)
    requires i < |passed| && passed[i] == 's' && i == SkipWhile(passed, 0, IsSpace)
    ensures BlockIndent(passed).None?
  {
    hide IsSpace, RestIsComment;
    NotSpaces();
    var r := Indentation(passed);
    FirstChar(passed, "human_result", r, 'h');
    assert r < i ==> IsSpace(passed[r]);
    assert r > i ==> IsBlank(passed[i]);
  }

  lemma PassedLine(line: string)
    requires StatusAt(Body(line)).Some?
    ensures var p := StatusAt(Body(line)).value;
      Body(Passed(line)) == Body(line)[..p] + "passed" + Body(line)[p + 8..] && Ending(Passed(line)) == Ending(line)
  {
    hide StatusAt;
    var p, line' := StatusAt(Body(line)).value, Passed(line);
    var n := |line| - EndingLength(line);
    AtBounds(Body(line), p);
    var m := |line|;
    assert line[p + 7] == Body(line)[p..p + 8][7] == "accepted"[7] == 'd';
    assert "passed"[5] == 'd' && |line'| == m - 2;
    assert line'[p + 5] == 'd' && forall k :: p + 8 <= k < m ==> line'[k - 2] == line[k];
    assert EndingLength(line') == EndingLength(line);
    assert line'[n - 2..] == line[n..];
    BodyCut(line, p);
    assert line'[..n - 2] == Body(line)[..p] + "passed" + Body(line)[p + 8..];
  }

  /** A line that was rewritten leads to the same state and is not rewritten again. */
  lemma RewrittenOnce(state: Option<nat>, line: string)
    ensures var line' := Rewritten(state, line);
      After(state, line') == After(state, line) && !Replaces(state, line')
    ensures Ending(Rewritten(state, line)) == Ending(line)
    ensures |Rewritten(state, line)| == |line| - if Replaces(state, line) then 2 else 0
  {
    hide StatusAt, BlockIndent, Skipped, Indentation, Body, Ending;
    if Replaces(state, line) {
      LineCases(state, line);
      PassedLine(line);
      PassedBody(Body(line), Body(Passed(line)));
    }
  }

  // ------------------------------------------------------- the whole rewriting

  lemma RewriteFirst(state: Option<nat>, lines: seq<string>)
    requires lines != []
    ensures RewriteAll(state, lines) == [Rewritten(state, lines[0])] + RewriteAll(After(state, lines[0]), lines[1..])
    ensures Replacements(state, lines) ==
      (if Replaces(state, lines[0]) then 1 else 0) + Replacements(After(state, lines[0]), lines[1..])
  {
    hide Rewritten, After, Replaces;
  }

  lemma {:induction false} RewriteTwice(state: Option<nat>, lines: seq<string>)
    ensures RewriteAll(state, RewriteAll(state, lines)) == RewriteAll(state, lines)
    ensures Replacements(state, RewriteAll(state, lines)) == 0
    decreases lines
  {
    hide Rewritten, After, Replaces, RewriteAll, Replacements, Ending;
    if lines == [] {
      NoLines();
    } else {
      var rest := RewriteAll(After(state, lines[0]), lines[1..]);
      RewriteFirst(state, lines);
      var out := RewriteAll(state, lines);
      RewriteFirst(state, out);
      assert out[1..] == rest;
      RewrittenOnce(state, lines[0]);
      NotTwice(state, out[0]);
      RewriteTwice(After(state, lines[0]), lines[1..]);
    }
  }

  lemma NotTwice(state: Option<nat>, line: string)
    requires !Replaces(state, line)
    ensures Rewritten(state, line) == line
  {
  }

  lemma {:induction false} LengthShrinks(state: Option<nat>, lines: seq<string>)
    ensures |Join(RewriteAll(state, lines))| + 2 * Replacements(state, lines) == |Join(lines)|
    ensures Replacements(state, lines) == 0 ==> RewriteAll(state, lines) == lines
    decreases lines
  {
    hide Rewritten, After, Replaces, RewriteAll, Replacements, Ending;
    if lines == [] {
      NoLines();
    } else {
      RewriteFirst(state, lines);
      RewrittenOnce(state, lines[0]);
      if !Replaces(state, lines[0]) { NotTwice(state, lines[0]); }
      LengthShrinks(After(state, lines[0]), lines[1..]);
      JoinCons(Rewritten(state, lines[0]), RewriteAll(After(state, lines[0]), lines[1..]));
      assert lines == [lines[0]] + lines[1..];
    }
  }

  // ---------------------------------------------------- the lines stay lines

  /** Same start and same ending, so it ends where the other would. */
  ghost predicate Alike(line: string, line': string) {
    && line != "" && line' != "" && line[0] == line'[0]
    && line[FirstBreak(line)..] == line'[FirstBreak(line')..]
  }

  lemma PassedAlike(state: Option<nat>, line: string)
    requires line != "" && LineLength(line) == |line|
    ensures Alike(line, Rewritten(state, line))
  {
    hide StatusAt, BlockIndent, Skipped, Indentation, Body, LineLength;
    LineCases(state, line);
    if Replaces(state, line) {
      var p := StatusAt(Body(line)).value;
      AtBounds(Body(line), p);
      BodyPrefix(line, p);
      CutAlike(line, p, Passed(line));
    }
  }

  lemma BodyPrefix(line: string, p: nat)
    requires At(Body(line), "accepted", p)
    ensures At(line, "accepted", p)
  {
    assert Body(line)[p..p + 8] == line[p..p + 8];
  }

  lemma NoBreakInWords()
    ensures forall c :: c in "accepted" || c in "passed" ==> !IsLineBreak(c)
  {
  }

  lemma CutAlike(line: string, p: nat, line': string)
    requires At(line, "accepted", p) && p > 0 && line' == line[..p] + "passed" + line[p + 8..]
    requires LineLength(line) == |line|
    ensures Alike(line, line')
  {
    hide IsLineBreak;
    NoBreakInWords();
    var k, word := FirstBreak(line), line[p..p + 8];
    BreakBehind(line, p, k);
    assert line'[p..p + 6] == "passed";
    forall i | 0 <= i < k - 2 ensures !IsLineBreak(line'[i]) {
      if i < p {
        assert line'[i] == line[i];
      } else if i < p + 6 {
        assert line'[i] == line'[p..p + 6][i - p];
      } else {
        assert line'[i] == line[i + 2];
      }
    }
    assert line'[k - 2..] == line[k..];
    assert k < |line| ==> line'[k - 2] == line[k];
    BreakIs(line', k - 2);
  }

  lemma BreakBehind(line: string, p: nat, k: nat)
    requires At(line, "accepted", p) && LineLength(line) == |line| && k == FirstBreak(line)
    ensures p + 8 <= k
  {
    hide IsLineBreak, FirstBreak;
    NoBreakInWords();
    WordBehind(line, p);
  }

  lemma WordBehind(line: string, p: nat)
    requires At(line, "accepted", p)
    ensures p + 8 <= |line| && forall i :: p <= i < p + 8 ==> line[i] in "accepted"
    ensures line[p] == 'a' && '\n' !in "accepted" && '\r' !in "accepted"
  {
    assert forall i :: p <= i < p + 8 ==> line[i] == line[p..p + 8][i - p];
    assert "accepted"[0] == 'a';
  }

  lemma LengthAlike(line: string, rest: string, line': string, rest': string)
    requires Alike(line, line') && LineLength(line + rest) == |line|
    requires (rest == "" <==> rest' == "") && (rest != "" ==> rest[0] == rest'[0])
    ensures LineLength(line' + rest') == |line'|
  {
    hide IsLineBreak;
    var s, s', k, k' := line + rest, line' + rest', FirstBreak(line), FirstBreak(line');
    BreakStays(line, rest);
    BreakStays(line', rest');
    assert |line[k..]| == |line'[k'..]|;
    if k < |line| {
      hide FirstBreak;
      assert s[k] == line[k..][0] == line'[k'..][0] == s'[k'];
      assert k + 1 < |line| ==> s[k + 1] == line[k..][1] == line'[k'..][1] == s'[k' + 1];
    } else {
      assert s == line && s' == line';
    }
  }

  lemma BreakStays(line: string, rest: string)
    ensures FirstBreak(line) < |line| ==> FirstBreak(line + rest) == FirstBreak(line)
  {
    hide IsLineBreak;
    var k := FirstBreak(line);
    if k < |line| {
      assert forall i :: 0 <= i <= k ==> (line + rest)[i] == line[i];
      BreakIs(line + rest, k);
    }
  }

  /** Splitting what was written yields the rewritten lines, neither more nor fewer. */
  lemma {:induction false} SplitRewritten(state: Option<nat>, text: string)
    ensures var out := RewriteAll(state, SplitLines(text));
      SplitLines(Join(out)) == out && (text == "" <==> Join(out) == "") && (text != "" ==> Join(out)[0] == text[0])
    decreases text
  {
    hide Rewritten, After, Replaces, RewriteAll, Join, Alike, LineLength, FirstBreak;
    if text == "" {
      NoLines();
    } else {
      var n := LineLength(text);
      var line, rest := text[..n], text[n..];
      var lines := SplitLines(text);
      assert lines == [line] + SplitLines(rest);
      RewriteFirst(state, lines);
      assert lines[1..] == SplitLines(rest);
      var state' := After(state, line);
      SplitRewritten(state', rest);
      var out', line' := RewriteAll(state', SplitLines(rest)), Rewritten(state, line);
      JoinCons(line', out');
      var rest' := Join(out');
      assert text == line + rest;
      LineAlone(line, rest);
      PassedAlike(state, line);
      LengthAlike(line, rest, line', rest');
      AlikeStart(line, line');
      assert (line' + rest')[..|line'|] == line' && (line' + rest')[|line'|..] == rest';
    }
  }

  lemma AlikeStart(line: string, line': string)
    requires Alike(line, line')
    ensures line != "" && line' != "" && line[0] == line'[0]
  {
  }

  lemma LineAlone(line: string, rest: string)
    requires LineLength(line + rest) == |line|
    ensures LineLength(line) == |line|
  {
    hide IsLineBreak;
    var k := FirstBreak(line + rest);
    assert forall i :: 0 <= i < |line| ==> (line + rest)[i] == line[i];
    if k < |line| {
      BreakIs(line, k);
    } else {
      assert line + rest == line;
    }
  }

  // ----------------------------------------------------------------- results

  /** A second pass replaces nothing and returns the same text. */
  lemma SecondPassChangesNothing(text: string)
    ensures Migrated(Migrated(text)) == Migrated(text) && Count(Migrated(text)) == 0
  {
    hide RewriteAll, Join, Replacements, SplitLines;
    SplitRewritten(None, text);
    RewriteTwice(None, SplitLines(text));
  }

  /** The count is zero exactly when the text is unchanged; each replacement
      shortens the text by two characters. */
  lemma CountIsZeroIffUnchanged(text: string)
    ensures Count(text) == 0 <==> Migrated(text) == text
    ensures |Migrated(text)| + 2 * Count(text) == |text|
  {
    hide RewriteAll, Join, Replacements, SplitLines;
    JoinSplit(text);
    LengthShrinks(None, SplitLines(text));
  }

  /** Line `i` lies in a block: an opening line before it, and since then only
      blank lines, comments, and lines indented further. */
  ghost predicate InBlock(lines: seq<string>, i: nat) {
    exists j: nat :: OpensBlock(lines, j, i)
  }

  ghost predicate OpensBlock(lines: seq<string>, j: nat, i: nat) {
    && j < i < |lines| && BlockIndent(Body(lines[j])).Some?
    && forall k :: j < k <= i ==> Continues(lines[k], BlockIndent(Body(lines[j])).value)
  }

  predicate Continues(line: string, indent: nat) {
    BlockIndent(Body(line)).None? && (Skipped(Body(line)) || Indentation(Body(line)) > indent)
  }

  /** The state in front of line `i`. */
  function StateAt(state: Option<nat>, lines: seq<string>, i: nat): Option<nat>
    requires i <= |lines|
  {
    if i == 0 then state else After(StateAt(state, lines, i - 1), lines[i - 1])
  }

  lemma {:induction false} StateShift(state: Option<nat>, lines: seq<string>, i: nat)
    requires 0 < i <= |lines|
    ensures StateAt(state, lines, i) == StateAt(After(state, lines[0]), lines[1..], i - 1)
  {
    hide After;
    if i > 1 { StateShift(state, lines, i - 1); }
  }

  lemma {:induction false} RewriteAt(state: Option<nat>, lines: seq<string>, i: nat)
    requires i < |lines|
    ensures RewriteAll(state, lines)[i] == Rewritten(StateAt(state, lines, i), lines[i])
    decreases i
  {
    hide After, Rewritten;
    if i > 0 {
      RewriteAt(After(state, lines[0]), lines[1..], i - 1);
      StateShift(state, lines, i);
    }
  }

  /** What the state means: the indentation of the block that is open. */
  lemma {:induction false} StateMeans(lines: seq<string>, i: nat, h: nat)
    requires i <= |lines|
    ensures StateAt(None, lines, i) == Some(h) <==> exists j: nat :: OpenSince(lines, j, i, h)
  {
    hide BlockIndent, Skipped, Indentation, Body;
    if i > 0 {
      StateMeans(lines, i - 1, h);
      LineCases(StateAt(None, lines, i - 1), lines[i - 1]);
      if StateAt(None, lines, i) == Some(h) {
        if BlockIndent(Body(lines[i - 1])).Some? {
          assert OpenSince(lines, i - 1, i, h);
        } else {
          var j: nat :| OpenSince(lines, j, i - 1, h);
          assert OpenSince(lines, j, i, h);
        }
      }
      if j: nat :| OpenSince(lines, j, i, h) {
        if j < i - 1 {
          assert OpenSince(lines, j, i - 1, h);
          assert Continues(lines[i - 1], h);
        }
      }
    }
  }

  ghost predicate OpenSince(lines: seq<string>, j: nat, i: nat, h: nat) {
    && j < i <= |lines| && BlockIndent(Body(lines[j])) == Some(h)
    && forall k :: j < k < i ==> Continues(lines[k], h)
  }

  lemma LineByLine(text: string, i: nat)
    requires i < |SplitLines(text)|
    ensures var lines, out := SplitLines(text), SplitLines(Migrated(text));
      && |out| == |lines| && Ending(out[i]) == Ending(lines[i])
      && out[i] == if InBlock(lines, i) && StatusAt(Body(lines[i])).Some? then Passed(lines[i]) else lines[i]
  {
    hide RewriteAll, Join, SplitLines, BlockIndent, StatusAt, Indentation, Ending, Body, Skipped;
    var lines := SplitLines(text);
    SplitRewritten(None, text);
    RewriteAt(None, lines, i);
    var state := StateAt(None, lines, i);
    RewrittenOnce(state, lines[i]);
    LineCases(state, lines[i]);
    StatusNotSkipped(Body(lines[i]));
    if state.Some? { StateMeans(lines, i, state.value); }
    if Replaces(state, lines[i]) {
      var j: nat :| OpenSince(lines, j, i, state.value);
      assert OpensBlock(lines, j, i);
    } else if j: nat :| OpensBlock(lines, j, i) {
      var h := BlockIndent(Body(lines[j])).value;
      assert OpenSince(lines, j, i, h);
      StateMeans(lines, i, h);
      assert Continues(lines[i], h);
    }
  }

  /** The lines of the result are the lines of the text, one for one and with
      their endings; a line differs exactly when it lies in a block and gives
      the status "accepted", and then only in that word. */
  lemma OnlyStatusLinesChange(text: string, i: nat)
    requires i < |SplitLines(text)|
    ensures var lines, out := SplitLines(text), SplitLines(Migrated(text));
      && |out| == |lines| && Ending(out[i]) == Ending(lines[i])
      && if InBlock(lines, i) && StatusAt(Body(lines[i])).Some? then
           var p := StatusAt(Body(lines[i])).value;
           p + 8 <= |lines[i]| && out[i] == lines[i][..p] + "passed" + lines[i][p + 8..]
         else out[i] == lines[i]
  {
    hide *;
    LineByLine(text, i);
    WordInside(SplitLines(text)[i]);
  }

  lemma WordInside(line: string)
    ensures StatusAt(Body(line)).Some? ==>
      var p := StatusAt(Body(line)).value;
      p + 8 <= |line| && Passed(line) == line[..p] + "passed" + line[p + 8..]
  {
    hide StatusAt;
    assert |Body(line)| <= |line|;
    if StatusAt(Body(line)).Some? { AtBounds(Body(line), StatusAt(Body(line)).value); }
  }

  lemma StatusNotSkipped(body: string)
    ensures StatusAt(body).Some? ==> !Skipped(body)
  {
    if StatusAt(body).Some? {
      var i, j := StatusParts(body);
      FirstChar(body, "status", i, 's');
    }
  }
}
