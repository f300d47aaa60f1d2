/** The frontmatter of agent files: read from a template, updated from a role,
    and written back in front of the unchanged body. */
module Frontmatter {
  import opened Text
  import opened Lines

  // ------------------------------------------------------------ the pattern

  /** `\n---\s*\n` at the start of `t`: the body behind it. */
  function Closing(t: string): Option<string> {
    if "\n---" <= t then BehindBlank(t[4..]) else None
  }

  datatype Match = Match(block: string, body: string)

  /** `(.*?)\n---\s*\n(.*)`: the shortest block. */
  function FirstClosing(t: string): Option<Match> {
    if Closing(t).Some? then Some(Match("", Closing(t).value))
    else if t == "" then None
    else
      match FirstClosing(t[1..])
      case Some(m) => Some(Match([t[0]] + m.block, m.body))
      case None => None
  }

  /** `\s*\n` in front of that, giving back line feeds while there is no closing. */
  function Opened(t: string): Option<Match> {
    if t == "" || !IsSpace(t[0]) then None
    else
      match Opened(t[1..])
      case Some(m) => Some(m)
      case None => if t[0] == '\n' then FirstClosing(t[1..]) else None
  }

  function Matched(raw: string): Option<Match> {
    if "---" <= raw then Opened(raw[3..]) else None
  }

  predicate Spaces(s: string) { forall c :: c in s ==> IsSpace(c) }

  /** The shape the pattern asks for: dashes, white space to a line's end, a block,
      dashes on a line, white space to a line's end, and the body. */
  predicate Shaped(raw: string, a: string, block: string, b: string, body: string) {
    Spaces(a) && Spaces(b) && raw == "---" + (a + ("\n" + (block + ("\n---" + (b + ("\n" + body))))))
  }

  lemma {:induction false} BlankIs(t: string) returns (ws: string)
    requires BehindBlank(t).Some?
    ensures Spaces(ws) && t == ws + ("\n" + BehindBlank(t).value)
  {
    hide IsSpace;
    if BehindBlank(t[1..]).Some? {
      ws := BlankIs(t[1..]);
      ws := [t[0]] + ws;
    } else {
      ws := "";
    }
  }

  lemma {:induction false} BlankThere(ws: string, rest: string)
    requires Spaces(ws)
    ensures BehindBlank(ws + ("\n" + rest)).Some?
  {
    var t := ws + ("\n" + rest);
    if ws != "" {
      assert t[1..] == ws[1..] + ("\n" + rest) && ws[0] in ws;
      BlankThere(ws[1..], rest);
    }
  }

  lemma {:induction false} ClosingIs(t: string) returns (b: string)
    requires FirstClosing(t).Some?
    ensures var m := FirstClosing(t).value;
      Spaces(b) && t == m.block + ("\n---" + (b + ("\n" + m.body)))
    ensures forall k :: 0 <= k < |FirstClosing(t).value.block| ==> k <= |t| && Closing(t[k..]).None?
  {
    hide IsSpace, BehindBlank, Spaces;
    if Closing(t).Some? {
      b := BlankIs(t[4..]);
      assert t == "\n---" + t[4..];
    } else {
      b := ClosingIs(t[1..]);
      var m := FirstClosing(t[1..]).value;
      assert FirstClosing(t).value.block == [t[0]] + m.block;
      forall k | 0 < k < |m.block| + 1 ensures k <= |t| && Closing(t[k..]).None? {
        assert t[1..][k - 1..] == t[k..];
      }
      assert t[0..] == t;
    }
  }

  lemma {:induction false} ClosingThere(block: string, b: string, body: string)
    requires Spaces(b)
    ensures FirstClosing(block + ("\n---" + (b + ("\n" + body)))).Some?
  {
    hide IsSpace, BehindBlank, Spaces;
    var rest := b + ("\n" + body);
    var x := "\n---" + rest;
    var t := block + x;
    if block == "" {
      assert t == x && x[4..] == rest;
      BlankThere(b, body);
    } else {
      assert t[1..] == block[1..] + x;
      ClosingThere(block[1..], b, body);
    }
  }

  lemma {:induction false} OpeningIs(t: string) returns (a: string)
    requires Opened(t).Some?
    ensures Spaces(a) && exists rest :: t == a + ("\n" + rest) && FirstClosing(rest) == Opened(t)
  {
    hide IsSpace, FirstClosing;
    if Opened(t[1..]).Some? {
      var x := OpeningIs(t[1..]);
      var rest :| t[1..] == x + ("\n" + rest) && FirstClosing(rest) == Opened(t[1..]);
      a := [t[0]] + x;
      assert t == a + ("\n" + rest);
    } else {
      a := "";
      assert t == "" + ("\n" + t[1..]);
    }
  }

  lemma {:induction false} OpeningThere(a: string, rest: string)
    requires Spaces(a) && FirstClosing(rest).Some?
    ensures Opened(a + ("\n" + rest)).Some?
  {
    hide FirstClosing;
    var t := a + ("\n" + rest);
    if a == "" {
      assert t[1..] == rest;
    } else {
      assert t[1..] == a[1..] + ("\n" + rest) && a[0] in a;
      OpeningThere(a[1..], rest);
    }
  }

  /** A file has frontmatter exactly when it has that shape; what is taken for block
      and body has it, and within the opening found no earlier line closes the block. */
  lemma MatchedIff(raw: string)
    ensures Matched(raw).Some? <==> exists a, block, b, body :: Shaped(raw, a, block, b, body)
    ensures Matched(raw).Some? ==> exists a, b :: Shaped(raw, a, Matched(raw).value.block, b, Matched(raw).value.body)
  {
    hide Opened, FirstClosing, Spaces;
    if Matched(raw).Some? {
      var m := Matched(raw).value;
      assert raw == "---" + raw[3..];
      var a := OpeningIs(raw[3..]);
      var rest :| raw[3..] == a + ("\n" + rest) && FirstClosing(rest) == Opened(raw[3..]);
      var b := ClosingIs(rest);
      assert Shaped(raw, a, m.block, b, m.body);
    }
    if a, block, b, body :| Shaped(raw, a, block, b, body) {
      var rest := block + ("\n---" + (b + ("\n" + body)));
      assert raw[3..] == a + ("\n" + rest);
      ClosingThere(block, b, body);
      OpeningThere(a, rest);
    }
  }

  // ------------------------------------------------------------------- pairs

  datatype Pair = Pair(key: string, value: string)

  /** A line without its line break. */
  function Bare(line: string): string { line[..FirstBreak(line)] }

  function PairOf(line: string): Option<Pair> {
    var i := Find(line, ":");
    if i == -1 then None
    else Some(Pair(Strip(line[..i], IsSpace), Strip(line[i + 1..], IsSpace)))
  }

  function PairsOf(lines: seq<string>): seq<Pair> {
    if lines == [] then []
    else
      var before, pair := PairsOf(lines[..|lines| - 1]), PairOf(Bare(lines[|lines| - 1]));
      if pair.Some? then before + [pair.value] else before
  }

  function Parsed(raw: string): (seq<Pair>, string) {
    match Matched(raw)
    case None => ([], raw)
    case Some(m) => (PairsOf(SplitLines(m.block)), m.body)
  }

  method ParseFrontmatter(raw: string) returns (pairs: seq<Pair>, body: string)
    ensures (pairs, body) == Parsed(raw)
  {
    hide *;
    ParsedCases(raw);
    var m := Matched(raw);
    if m.None? { return [], raw; }
    var lines := SplitLines(m.value.block);
    pairs := [];
    PairsNone();
    for i := 0 to |lines|
      invariant pairs == PairsOf(lines[..i])
    {
      PairsNext(lines, i);
      var pair := PairOf(Bare(lines[i]));
      if pair.Some? { pairs := pairs + [pair.value]; }
    }
    assert lines[..|lines|] == lines;
    body := m.value.body;
  }

  lemma ParsedCases(raw: string)
    ensures Parsed(raw) == if Matched(raw).None? then ([], raw) else (PairsOf(SplitLines(Matched(raw).value.block)), Matched(raw).value.body)
  {
    hide Matched, SplitLines, PairsOf;
  }

  lemma PairsNone()
    ensures PairsOf([]) == []
  {
  }

  lemma PairsNext(lines: seq<string>, i: nat)
    requires i < |lines|
    ensures var before, pair := PairsOf(lines[..i]), PairOf(Bare(lines[i]));
      PairsOf(lines[..i + 1]) == if pair.Some? then before + [pair.value] else before
  {
    hide PairOf, Bare;
    assert lines[..i + 1][..i] == lines[..i];
  }

  // --------------------------------------------------------------- rendering

  /** The fields of a role that are rendered. */
  datatype Role = Role(name: string, model: string, level: string)

  const DROPPED := "readonly"

  /** The role's values, in the order in which missing ones are appended. */
  function Updates(role: Role): seq<Pair> {
    [Pair("name", role.name), Pair("model", role.model)] +
    if role.level == "none" then [Pair("tools", "Read, Grep, Glob")] else []
  }

  function Lookup(updates: seq<Pair>, key: string): Option<string> {
    if updates == [] then None
    else if updates[0].key == key then Some(updates[0].value)
    else Lookup(updates[1..], key)
  }

  function Updated(pair: Pair, updates: seq<Pair>): Pair {
    var value := Lookup(updates, pair.key);
    if value.Some? then Pair(pair.key, value.value) else pair
  }

  /** The template's pairs in order, without the dropped, with the role's values. */
  function Kept(pairs: seq<Pair>, updates: seq<Pair>): seq<Pair> {
    if pairs == [] then []
    else
      var before, last := Kept(pairs[..|pairs| - 1], updates), pairs[|pairs| - 1];
      if last.key == DROPPED then before else before + [Updated(last, updates)]
  }

  predicate HasKey(pairs: seq<Pair>, key: string) {
    exists p :: p in pairs && p.key == key
  }

  function Missing(kept: seq<Pair>, updates: seq<Pair>): seq<Pair> {
    if updates == [] then []
    else
      var before, last := Missing(kept, updates[..|updates| - 1]), updates[|updates| - 1];
      if HasKey(kept, last.key) then before else before + [last]
  }

  function Merged(pairs: seq<Pair>, role: Role): seq<Pair> {
    var kept := Kept(pairs, Updates(role));
    kept + Missing(kept, Updates(role))
  }

  function Line(p: Pair): string { p.key + ": " + p.value }

  /** `"\n".join(lines)`. */
  function JoinLines(lines: seq<string>): string {
    if |lines| == 0 then ""
    else if |lines| == 1 then lines[0]
    else lines[0] + "\n" + JoinLines(lines[1..])
  }

  function LinesOf(pairs: seq<Pair>): seq<string> {
    if pairs == [] then [] else LinesOf(pairs[..|pairs| - 1]) + [Line(pairs[|pairs| - 1])]
  }

  function Rendered(template: string, role: Role): string {
    var (pairs, body) := Parsed(template);
    if pairs == [] then template
    else JoinLines(["---"] + LinesOf(Merged(pairs, role)) + ["---"]) + "\n" + body
  }

  method KeepAndUpdate(pairs: seq<Pair>, updates: seq<Pair>) returns (rendered: seq<Pair>, seen: set<string>)
    ensures rendered == Kept(pairs, updates)
    ensures forall key :: key in seen <==> HasKey(rendered, key)
  {
    hide Lookup;
    rendered, seen := [], {};
    for i := 0 to |pairs|
      invariant rendered == Kept(pairs[..i], updates)
      invariant forall key :: key in seen <==> HasKey(rendered, key)
    {
      assert pairs[..i + 1][..i] == pairs[..i];
      var p := pairs[i];
      if p.key != DROPPED {
        hide HasKey;
        AddKey(rendered, Updated(p, updates));
        rendered := rendered + [Updated(p, updates)];
        seen := seen + {p.key};
      }
    }
    assert pairs[..|pairs|] == pairs;
  }

  method AppendMissing(kept: seq<Pair>, seen: set<string>, updates: seq<Pair>) returns (rendered: seq<Pair>)
    requires forall key :: key in seen <==> HasKey(kept, key)
    ensures rendered == kept + Missing(kept, updates)
  {
    hide HasKey;
    rendered := kept;
    for i := 0 to |updates|
      invariant rendered == kept + Missing(kept, updates[..i])
    {
      assert updates[..i + 1][..i] == updates[..i];
      if updates[i].key !in seen { rendered := rendered + [updates[i]]; }
    }
    assert updates[..|updates|] == updates;
  }

  method LinesToWrite(rendered: seq<Pair>) returns (lines: seq<string>)
    ensures lines == ["---"] + LinesOf(rendered) + ["---"]
  {
    hide Line;
    lines := ["---"];
    for i := 0 to |rendered|
      invariant lines == ["---"] + LinesOf(rendered[..i])
    {
      assert rendered[..i + 1][..i] == rendered[..i];
      lines := lines + [Line(rendered[i])];
    }
    assert rendered[..|rendered|] == rendered;
    lines := lines + ["---"];
  }

  /** Renders a template for a role. A body never starts with a line feed, so the
      separate case for that is dead. */
  method RenderAgentFromRole(template: string, role: Role) returns (r: string)
    ensures r == Rendered(template, role)
  {
    hide *;
    var pairs, body := ParseFrontmatter(template);
    RenderedCases(template, role);
    if pairs == [] { return template; }
    var updates := Updates(role);
    var rendered, seen := KeepAndUpdate(pairs, updates);
    rendered := AppendMissing(rendered, seen, updates);
    var lines := LinesToWrite(rendered);
    BodyStartsWithText(template);
    if body != "" && body[0] == '\n' {
      assert false;
    }
    return JoinLines(lines) + "\n" + body;
  }

  lemma RenderedCases(template: string, role: Role)
    ensures var (pairs, body) := Parsed(template);
      Rendered(template, role) == if pairs == [] then template
      else JoinLines(["---"] + LinesOf(Merged(pairs, role)) + ["---"]) + "\n" + body
    ensures var (pairs, body) := Parsed(template);
      Merged(pairs, role) == Kept(pairs, Updates(role)) + Missing(Kept(pairs, Updates(role)), Updates(role))
  {
    hide Parsed, LinesOf, JoinLines, Kept, Missing, Updates;
  }

  lemma AddKey(pairs: seq<Pair>, p: Pair)
    ensures forall key :: HasKey(pairs + [p], key) <==> HasKey(pairs, key) || p.key == key
  {
    forall key ensures HasKey(pairs + [p], key) <==> HasKey(pairs, key) || p.key == key {
      if HasKey(pairs, key) {
        var q :| q in pairs && q.key == key;
        assert q in pairs + [p];
      }
      assert p in pairs + [p];
    }
  }

  // ---------------------------------------------------- what the pattern yields

  lemma {:induction false} BehindLast(t: string)
    ensures BehindBlank(t).Some? ==> BehindBlank(BehindBlank(t).value).None?
  {
    if t != "" { BehindLast(t[1..]); }
  }

  lemma NoLineFeedFirst(t: string)
    requires BehindBlank(t).None?
    ensures t != "" ==> t[0] != '\n'
  {
    assert IsSpace('\n');
  }

  lemma {:induction false} FirstClosingBody(t: string)
    ensures FirstClosing(t).Some? ==> BehindBlank(FirstClosing(t).value.body).None?
  {
    hide BehindBlank;
    if Closing(t).Some? {
      BehindLast(t[4..]);
    } else if t != "" {
      FirstClosingBody(t[1..]);
    }
  }

  lemma {:induction false} OpenedBody(t: string)
    ensures Opened(t).Some? ==> BehindBlank(Opened(t).value.body).None?
  {
    hide BehindBlank, FirstClosing, IsSpace;
    if t != "" {
      FirstClosingBody(t[1..]);
      OpenedBody(t[1..]);
    }
  }

  /** A matched body has no blank line in front, so never starts with a line feed. */
  lemma BodyStartsWithText(raw: string)
    ensures Matched(raw).Some? ==> BehindBlank(Parsed(raw).1).None?
    ensures Parsed(raw).0 != [] ==> Matched(raw).Some? && (Parsed(raw).1 == "" || Parsed(raw).1[0] != '\n')
  {
    hide BehindBlank, Opened;
    if Matched(raw).Some? {
      OpenedBody(raw[3..]);
      NoLineFeedFirst(Matched(raw).value.body);
    }
  }

  // ------------------------------------------------------------ clean pairs

  ghost predicate OneLine(s: string) { forall c :: c in s ==> !IsLineBreak(c) }

  /** What reading a line yields, and what survives being written and read. */
  ghost predicate Clean(p: Pair) {
    && Trimmed(p.key, IsSpace) && OneLine(p.key) && ':' !in p.key
    && Trimmed(p.value, IsSpace) && OneLine(p.value)
  }

  ghost predicate AllClean(ps: seq<Pair>) { forall p :: p in ps ==> Clean(p) }

  ghost predicate CleanRole(role: Role) {
    Trimmed(role.name, IsSpace) && OneLine(role.name) && Trimmed(role.model, IsSpace) && OneLine(role.model)
  }

  lemma StripKeeps(s: string)
    ensures Trimmed(Strip(s, IsSpace), IsSpace)
    ensures forall c :: c in Strip(s, IsSpace) ==> c in s
  {
    hide IsSpace, StripLeft, StripRight;
    StripTrims(s, IsSpace);
    var lo, hi := StripSlice(s, IsSpace);
  }

  lemma PairOfIsClean(line: string)
    requires OneLine(line)
    ensures PairOf(line).Some? ==> Clean(PairOf(line).value)
  {
    hide IsSpace, IsLineBreak, Strip, Trimmed, Contains;
    var i := Find(line, ":");
    if i != -1 {
      StripKeeps(line[..i]);
      StripKeeps(line[i + 1..]);
      NoColonBefore(line, i);
    }
  }

  lemma NoColonBefore(line: string, i: int)
    requires i == Find(line, ":") && i != -1
    ensures 0 <= i < |line| && ':' !in line[..i]
  {
    forall k | 0 <= k < i ensures line[k] != ':' {
      assert !At(line, ":", k);
      assert line[k..k + 1] == [line[k]];
    }
  }

  lemma BareIsOneLine(line: string)
    ensures OneLine(Bare(line))
  {
    hide IsLineBreak;
  }

  lemma {:induction false} PairsAreClean(lines: seq<string>)
    ensures AllClean(PairsOf(lines))
  {
    hide *;
    if lines == [] {
      PairsNone();
      NoneClean();
    } else {
      var n := |lines| - 1;
      PairsAreClean(lines[..n]);
      BareIsOneLine(lines[n]);
      PairOfIsClean(Bare(lines[n]));
      PairsNext(lines, n);
      assert lines[..n + 1] == lines;
      var pair := PairOf(Bare(lines[n]));
      if pair.Some? { OneMoreClean(PairsOf(lines[..n]), pair.value); }
    }
  }

  lemma NoneClean()
    ensures AllClean([])
  {
  }

  lemma OneMoreClean(ps: seq<Pair>, p: Pair)
    requires AllClean(ps) && Clean(p)
    ensures AllClean(ps + [p])
  {
    hide Clean;
  }

  lemma {:induction false} KeptAreClean(pairs: seq<Pair>, role: Role)
    requires AllClean(pairs) && CleanRole(role)
    ensures AllClean(Kept(pairs, Updates(role)))
  {
    if pairs != [] {
      var n := |pairs| - 1;
      KeptAreClean(pairs[..n], role);
      assert pairs[n] in pairs;
      UpdatedIsClean(pairs[n], role);
      hide Clean, Updates, Updated, CleanRole;
    }
  }

  lemma UpdatedIsClean(p: Pair, role: Role)
    requires Clean(p) && CleanRole(role)
    ensures Clean(Updated(p, Updates(role)))
    ensures AllClean(Updates(role))
  {
    hide IsSpace, IsLineBreak;
    UpdatesAreClean(role);
    LookupIn(Updates(role), p.key);
    hide Updates, OneLine, Trimmed;
  }

  lemma UpdatesAreClean(role: Role)
    requires CleanRole(role)
    ensures AllClean(Updates(role))
  {
    hide IsSpace, IsLineBreak;
    PrintableIsPlain("name");
    PrintableIsPlain("model");
    PrintableIsPlain("tools");
    PrintableIsPlain("Read, Grep, Glob");
    hide OneLine, Trimmed;
    var us := Updates(role);
    assert us[0] == Pair("name", role.name) && us[1] == Pair("model", role.model);
    assert |us| > 2 ==> us[2] == Pair("tools", "Read, Grep, Glob");
    assert ':' !in "name" && ':' !in "model" && ':' !in "tools";
  }

  lemma PrintableIsPlain(s: string)
    requires forall c :: c in s ==> ' ' <= c <= '~'
    requires s != "" && s[0] != ' ' && s[|s| - 1] != ' '
    ensures Trimmed(s, IsSpace) && OneLine(s)
  {
    assert s[0] in s && s[|s| - 1] in s;
  }

  lemma {:induction false} LookupIn(updates: seq<Pair>, key: string)
    ensures Lookup(updates, key).Some? ==> Pair(key, Lookup(updates, key).value) in updates
    ensures Lookup(updates, key).None? ==> !HasKey(updates, key)
  {
    if updates != [] {
      LookupIn(updates[1..], key);
      assert updates == [updates[0]] + updates[1..];
    }
  }

  lemma {:induction false} MissingIn(kept: seq<Pair>, updates: seq<Pair>)
    ensures forall p :: p in Missing(kept, updates) <==> p in updates && !HasKey(kept, p.key)
  {
    if updates != [] {
      var n := |updates| - 1;
      MissingIn(kept, updates[..n]);
      assert updates == updates[..n] + [updates[n]];
    }
  }

  // ----------------------------------------------------------- what is merged

  /** No dropped key, the role's value under each of its keys, every key of it there. */
  ghost predicate Settled(ps: seq<Pair>, updates: seq<Pair>) {
    && (forall p :: p in ps ==> p.key != DROPPED && Updated(p, updates) == p)
    && (forall u :: u in updates ==> HasKey(ps, u.key))
  }

  lemma {:induction false} KeptSettled(pairs: seq<Pair>, updates: seq<Pair>)
    ensures forall p :: p in Kept(pairs, updates) ==> p.key != DROPPED && Updated(p, updates) == p
  {
    if pairs != [] {
      KeptSettled(pairs[..|pairs| - 1], updates);
    }
  }

  lemma LookupUpdates(role: Role)
    ensures forall u :: u in Updates(role) ==> Lookup(Updates(role), u.key) == Some(u.value) && u.key != DROPPED
  {
    var us := Updates(role);
    assert Lookup(us, "name") == Some(role.name);
    assert us[1..][0].key == "model" && "model" != "name";
    assert Lookup(us, "model") == Some(role.model);
    if role.level == "none" {
      assert us[1..][1..][0].key == "tools" && "tools"[0] == 't' && "name"[0] == 'n' && "model"[0] == 'm';
      assert Lookup(us[1..][1..], "tools") == Some("Read, Grep, Glob");
      assert Lookup(us, "tools") == Lookup(us[1..], "tools") == Lookup(us[1..][1..], "tools");
    }
    assert DROPPED[0] == 'r';
  }

  lemma MergedSettled(pairs: seq<Pair>, role: Role)
    ensures Settled(Merged(pairs, role), Updates(role))
  {
    hide Kept, Missing, Updates, Lookup;
    var us := Updates(role);
    var kept := Kept(pairs, us);
    var missing := Missing(kept, us);
    LookupUpdates(role);
    KeptSettled(pairs, us);
    MissingIn(kept, us);
    forall u | u in us ensures HasKey(kept + missing, u.key) {
      if HasKey(kept, u.key) {
        var q :| q in kept && q.key == u.key;
        assert q in kept + missing;
      } else {
        assert u in missing && u in kept + missing;
      }
    }
  }

  /** Pairs that are settled are left alone. */
  lemma {:induction false} SettledKept(ps: seq<Pair>, updates: seq<Pair>)
    requires forall p :: p in ps ==> p.key != DROPPED && Updated(p, updates) == p
    ensures Kept(ps, updates) == ps
  {
    if ps != [] {
      hide Updated;
      SettledKept(ps[..|ps| - 1], updates);
      assert ps[|ps| - 1] in ps;
    }
  }

  lemma SettledMerged(ps: seq<Pair>, role: Role)
    requires Settled(ps, Updates(role))
    ensures Merged(ps, role) == ps
  {
    hide Kept, Missing, Updates, Updated;
    SettledKept(ps, Updates(role));
    MissingIn(ps, Updates(role));
    var missing := Missing(ps, Updates(role));
    EmptyOrMember(missing);
  }

  /** The pairs whose keys the role does not set and that are not dropped. */
  function Others(ps: seq<Pair>, updates: seq<Pair>): seq<Pair> {
    if ps == [] then []
    else
      var before, last := Others(ps[..|ps| - 1], updates), ps[|ps| - 1];
      if last.key == DROPPED || HasKey(updates, last.key) then before else before + [last]
  }

  function CountKey(ps: seq<Pair>, key: string): nat {
    if ps == [] then 0 else CountKey(ps[..|ps| - 1], key) + if ps[|ps| - 1].key == key then 1 else 0
  }

  lemma {:induction false} KeptCounts(pairs: seq<Pair>, updates: seq<Pair>, key: string)
    ensures CountKey(Kept(pairs, updates), key) == if key == DROPPED then 0 else CountKey(pairs, key)
    ensures Others(Kept(pairs, updates), updates) == Others(pairs, updates)
  {
    if pairs != [] {
      var n := |pairs| - 1;
      KeptCounts(pairs[..n], updates, key);
      LookupIn(updates, pairs[n].key);
      var before, p := Kept(pairs[..n], updates), Updated(pairs[n], updates);
      assert (before + [p])[..|before|] == before;
      LookupMissing(updates, pairs[n].key);
      hide HasKey;
    }
  }

  lemma LookupMissing(updates: seq<Pair>, key: string)
    ensures Lookup(updates, key).Some? <==> HasKey(updates, key)
  {
    LookupIn(updates, key);
    if Lookup(updates, key).Some? {
      assert Pair(key, Lookup(updates, key).value) in updates;
    }
  }

  lemma {:induction false} CountZero(ps: seq<Pair>, key: string)
    ensures CountKey(ps, key) == 0 <==> !HasKey(ps, key)
  {
    if ps != [] {
      var n := |ps| - 1;
      CountZero(ps[..n], key);
      assert ps == ps[..n] + [ps[n]];
      AddKey(ps[..n], ps[n]);
    }
  }

  lemma {:induction false} CountAppend(ps: seq<Pair>, qs: seq<Pair>, updates: seq<Pair>, key: string)
    requires forall q :: q in qs ==> HasKey(updates, q.key)
    ensures CountKey(ps + qs, key) == CountKey(ps, key) + CountKey(qs, key)
    ensures Others(ps + qs, updates) == Others(ps, updates)
  {
    hide HasKey;
    if qs == [] {
      assert ps + qs == ps;
    } else {
      var n := |qs| - 1;
      CountAppend(ps, qs[..n], updates, key);
      assert (ps + qs)[..|ps| + n] == ps + qs[..n];
      assert qs[n] in qs;
    }
  }

  lemma MissingCounts(kept: seq<Pair>, role: Role, key: string)
    ensures CountKey(Missing(kept, Updates(role)), key) ==
      if HasKey(Updates(role), key) && !HasKey(kept, key) then 1 else 0
  {
    hide HasKey;
    MissingCount(kept, Updates(role), key);
    UpdatesOnce(role, key);
    CountZero(Updates(role), key);
  }

  lemma {:induction false} MissingCount(kept: seq<Pair>, updates: seq<Pair>, key: string)
    ensures CountKey(Missing(kept, updates), key) == if HasKey(kept, key) then 0 else CountKey(updates, key)
  {
    if updates != [] {
      hide HasKey;
      var n := |updates| - 1;
      MissingCount(kept, updates[..n], key);
      var before := Missing(kept, updates[..n]);
      assert (before + [updates[n]])[..|before|] == before;
    }
  }

  lemma UpdatesOnce(role: Role, key: string)
    ensures CountKey(Updates(role), key) <= 1
  {
    var us := Updates(role);
    var two := [Pair("name", role.name), Pair("model", role.model)];
    assert two[..1] == [Pair("name", role.name)] && two[..1][..0] == [];
    assert CountKey(two[..1], key) == if key == "name" then 1 else 0;
    assert CountKey(two, key) == (if key == "name" then 1 else 0) + (if key == "model" then 1 else 0);
    assert "name"[0] == 'n' && "model"[0] == 'm' && "tools"[0] == 't';
    if role.level == "none" {
      assert us == two + [Pair("tools", "Read, Grep, Glob")];
      assert us[..2] == two;
    } else {
      assert us == two;
    }
  }

  /** Dropped keys are gone, the role's keys occur where they did, or once if
      they did not, and the other pairs are the template's, in order. */
  lemma MergedMeans(pairs: seq<Pair>, role: Role, key: string)
    ensures var us := Updates(role);
      CountKey(Merged(pairs, role), key) ==
        if key == DROPPED then 0
        else if HasKey(us, key) && CountKey(pairs, key) == 0 then 1
        else CountKey(pairs, key)
    ensures Others(Merged(pairs, role), Updates(role)) == Others(pairs, Updates(role))
    ensures forall p :: p in Merged(pairs, role) && HasKey(Updates(role), p.key) ==> p in Updates(role)
  {
    hide Kept, Missing, Updates, Others, HasKey, CountKey;
    var us := Updates(role);
    var kept := Kept(pairs, us);
    KeptCounts(pairs, us, key);
    CountZero(kept, key);
    MissingCounts(kept, role, key);
    MissingIn(kept, us);
    forall q | q in Missing(kept, us) ensures HasKey(us, q.key) {
      KeyThere(us, q);
    }
    CountAppend(kept, Missing(kept, us), us, key);
    DroppedNotUpdated(role);
    MergedSettled(pairs, role);
    forall p | p in Merged(pairs, role) && HasKey(us, p.key) ensures p in us {
      LookupMissing(us, p.key);
      LookupIn(us, p.key);
      assert Updated(p, us) == p;
    }
  }

  const READ_ONLY_TOOLS := "Read, Grep, Glob"

  lemma UpdatesAre(role: Role)
    ensures forall p :: p in Updates(role) <==>
      p == Pair("name", role.name) || p == Pair("model", role.model)
      || (role.level == "none" && p == Pair("tools", READ_ONLY_TOOLS))
    ensures "name" != "model" && "name" != "tools" && "model" != "tools"
    ensures DROPPED != "name" && DROPPED != "model" && DROPPED != "tools"
  {
    assert "name"[0] == 'n' && "model"[0] == 'm' && "tools"[0] == 't' && DROPPED[0] == 'r';
  }

  lemma {:induction false} OthersMembers(ps: seq<Pair>, updates: seq<Pair>, p: Pair)
    ensures p in Others(ps, updates) <==> p in ps && p.key != DROPPED && !HasKey(updates, p.key)
  {
    hide HasKey;
    if ps != [] {
      OthersMembers(ps[..|ps| - 1], updates, p);
      assert ps == ps[..|ps| - 1] + [ps[|ps| - 1]];
    }
  }

  /** What a rendered agent says: the role's name and model, and for a role that may
      not write, just the tools that read; the template's tools otherwise; and all
      of the template's other pairs but the dropped. */
  lemma MergedFields(pairs: seq<Pair>, role: Role)
    ensures var m := Merged(pairs, role);
      && (forall v :: Pair("name", v) in m <==> v == role.name)
      && (forall v :: Pair("model", v) in m <==> v == role.model)
      && (forall v :: Pair("tools", v) in m <==> if role.level == "none" then v == READ_ONLY_TOOLS else Pair("tools", v) in pairs)
      && (forall p: Pair :: p.key != "name" && p.key != "model" && p.key != "tools" ==>
            (p in m <==> p in pairs && p.key != DROPPED))
  {
    var m, us := Merged(pairs, role), Updates(role);
    UpdatesAre(role);
    hide Merged, Updates, DROPPED, READ_ONLY_TOOLS;
    forall p: Pair
      ensures HasKey(us, p.key) ==> (p in m <==> p in us)
      ensures !HasKey(us, p.key) ==> (p in m <==> p in pairs && p.key != DROPPED)
    {
      MergedAt(pairs, role, p);
    }
    assert HasKey(us, "name") && HasKey(us, "model") by {
      assert Pair("name", role.name) in us && Pair("model", role.model) in us;
    }
    assert HasKey(us, "tools") <==> role.level == "none" by {
      assert role.level == "none" ==> Pair("tools", READ_ONLY_TOOLS) in us;
    }
  }

  lemma MergedAt(pairs: seq<Pair>, role: Role, p: Pair)
    ensures var us := Updates(role);
      && (HasKey(us, p.key) ==> (p in Merged(pairs, role) <==> p in us))
      && (!HasKey(us, p.key) ==> (p in Merged(pairs, role) <==> p in pairs && p.key != DROPPED))
  {
    var m, us := Merged(pairs, role), Updates(role);
    MergedMeans(pairs, role, p.key);
    OthersMembers(m, us, p);
    OthersMembers(pairs, us, p);
    CountZero(m, p.key);
    CountZero(pairs, p.key);
    DroppedNotUpdated(role);
    if p in us { UpdateIsOnly(role, p); }
    hide Merged, Updates, CountKey, Others;
    if p in us {
      KeyThere(us, p);
      var q :| q in m && q.key == p.key;
      assert q in us;
    }
    if p.key == DROPPED && p in m { KeyThere(m, p); }
  }

  /** A key the role sets, it sets to one value. */
  lemma UpdateIsOnly(role: Role, p: Pair)
    requires p in Updates(role)
    ensures forall q :: q in Updates(role) && q.key == p.key ==> q == p
  {
    UpdatesAre(role);
    hide Updates;
  }

  lemma KeyThere(ps: seq<Pair>, p: Pair)
    requires p in ps
    ensures HasKey(ps, p.key)
  {
  }

  lemma DroppedNotUpdated(role: Role)
    ensures !HasKey(Updates(role), DROPPED)
  {
    LookupUpdates(role);
    hide Updates;
  }

  // --------------------------------------------------------- reading it again

  /** A line as rendering writes it: on one line, with a colon, no space in front. */
  ghost predicate Written(line: string) {
    OneLine(line) && line != "" && !IsSpace(line[0]) && exists i :: 0 <= i < |line| && line[i] == ':'
  }

  lemma LineIsWritten(p: Pair)
    requires Clean(p)
    ensures Written(Line(p))
  {
    hide IsSpace, IsLineBreak;
    var line := Line(p);
    assert line[|p.key|] == ':';
    assert !IsSpace(':') && !IsLineBreak(':') && !IsLineBreak(' ') by { Colon(); }
    forall c | c in line ensures !IsLineBreak(c) {
      assert c in p.key || c in ": " || c in p.value;
    }
    assert p.key != "" ==> line[0] == p.key[0];
  }

  lemma Colon()
    ensures !IsSpace(':') && !IsLineBreak(':') && !IsLineBreak(' ') && IsLineBreak('\n') && IsSpace(' ') && IsSpace('\n')
  {
  }

  lemma PairOfLine(p: Pair)
    requires Clean(p)
    ensures PairOf(Line(p)) == Some(p)
  {
    hide IsSpace, IsLineBreak, Strip, Contains;
    var line, n := Line(p), |p.key|;
    assert line[n..n + 1] == ":";
    assert At(line, ":", n);
    forall k | 0 <= k < n ensures !At(line, ":", k) {
      assert line[k..k + 1][0] == p.key[k];
      assert p.key[k] in p.key;
    }
    FindIs(line, ":", n);
    assert line[..n] == p.key && line[n + 1..] == " " + p.value;
    StripTrims(p.key, IsSpace);
    StripSpace(p.value);
  }

  lemma StripSpace(value: string)
    requires Trimmed(value, IsSpace)
    ensures Strip(" " + value, IsSpace) == value
  {
    hide IsSpace;
    Colon();
    assert (" " + value)[1..] == value;
    assert StripLeft(" " + value, IsSpace) == StripLeft(value, IsSpace);
  }

  lemma LinesLast(ps: seq<Pair>)
    ensures LinesOf(ps) == if ps == [] then [] else LinesOf(ps[..|ps| - 1]) + [Line(ps[|ps| - 1])]
  {
    hide Line;
  }

  lemma {:induction false} WrittenLines(ps: seq<Pair>)
    requires AllClean(ps)
    ensures |LinesOf(ps)| == |ps|
    ensures forall i :: 0 <= i < |ps| ==> LinesOf(ps)[i] == Line(ps[i]) && Written(LinesOf(ps)[i]) && PairOf(LinesOf(ps)[i]) == Some(ps[i])
  {
    hide Clean, Line, PairOf, Written, LinesOf;
    LinesLast(ps);
    if ps != [] {
      var n := |ps| - 1;
      WrittenLines(ps[..n]);
      assert ps[n] in ps;
      LineIsWritten(ps[n]);
      PairOfLine(ps[n]);
      assert forall i :: 0 <= i < n ==> ps[..n][i] == ps[i];
    }
  }

  /** White space stops at a character that is not, and holds no line feed before it. */
  lemma {:induction false} BlankStops(u: string, v: string)
    requires OneLine(u) && exists i :: 0 <= i < |u| && !IsSpace(u[i])
    ensures BehindBlank(u + v).None?
  {
    hide IsSpace, IsLineBreak;
    Colon();
    assert (u + v)[0] == u[0] && u[0] in u;
    if IsSpace(u[0]) {
      assert (u + v)[1..] == u[1..] + v;
      var i :| 0 <= i < |u| && !IsSpace(u[i]);
      assert u[1..][i - 1] == u[i];
      BlankStops(u[1..], v);
    }
  }

  /** A line feed in front of a written line does not close the block. */
  lemma NoClosing(line: string, v: string)
    requires Written(line) && v != "" && v[0] == '\n'
    ensures Closing("\n" + line + v).None?
  {
    hide IsSpace, IsLineBreak, BehindBlank;
    var t := "\n" + line + v;
    Colon();
    assert t[1..] == line + v;
    assert t[|line| + 1] == v[0];
    if "\n---" <= t {
      assert t[1] == '-' && t[2] == '-' && t[3] == '-';
      assert forall k :: 0 <= k < 3 && k < |line| ==> line[k] == t[k + 1] == '-';
      var i :| 0 <= i < |line| && line[i] == ':';
      assert line[3..][i - 3] == ':';
      assert t[4..] == line[3..] + v;
      BlankStops(line[3..], v);
    }
  }

  /** Text without line feeds goes into the block. */
  lemma {:induction false} SkipText(u: string, v: string, m: Match)
    requires '\n' !in u && FirstClosing(v) == Some(m)
    ensures FirstClosing(u + v) == Some(Match(u + m.block, m.body))
  {
    hide BehindBlank;
    if u == "" {
      assert u + v == v && u + m.block == m.block;
    } else {
      assert u[0] in u && (u + v)[0] == u[0] && (u + v)[1..] == u[1..] + v;
      SkipText(u[1..], v, m);
      assert u + m.block == [u[0]] + (u[1..] + m.block);
    }
  }

  lemma SkipLine(line: string, v: string, m: Match)
    requires Written(line) && Closing(v).None? && v != "" && v[0] == '\n' && FirstClosing(v[1..]) == Some(m)
    ensures FirstClosing(line + v) == Some(Match(line + "\n" + m.block, m.body))
  {
    hide Closing, IsSpace, IsLineBreak;
    Colon();
    assert [v[0]] == "\n";
    SkipText(line, v, Match("\n" + m.block, m.body));
    Assoc(line, "\n", m.block);
  }

  lemma LastLine(line: string, tail: string, body: string)
    requires Written(line) && Closing(tail) == Some(body)
    ensures FirstClosing(line + tail) == Some(Match(line, body))
  {
    hide Closing, IsSpace, IsLineBreak;
    Colon();
    SkipText(line, tail, Match("", body));
    assert line + "" == line;
  }

  /** The whole of the written lines is the block. */
  lemma {:induction false} BlockFound(lines: seq<string>, tail: string, body: string)
    requires lines != [] && forall i :: 0 <= i < |lines| ==> Written(lines[i])
    requires Closing(tail) == Some(body) && tail != "" && tail[0] == '\n'
    ensures FirstClosing(JoinLines(lines) + tail) == Some(Match(JoinLines(lines), body))
  {
    if |lines| == 1 {
      LastLine(lines[0], tail, body);
    } else {
      hide Closing, Written, FirstClosing;
      var rest := JoinLines(lines[1..]);
      BlockFound(lines[1..], tail, body);
      JoinStarts(lines[1..], tail);
      OneMoreLine(lines[0], lines[1], rest, tail, body);
    }
  }

  lemma OneMoreLine(line: string, next: string, rest: string, tail: string, body: string)
    requires Written(line) && Written(next) && FirstClosing(rest + tail) == Some(Match(rest, body))
    requires exists w: string :: rest + tail == next + w && w != "" && w[0] == '\n'
    ensures FirstClosing(line + "\n" + rest + tail) == Some(Match(line + "\n" + rest, body))
  {
    hide Closing, IsSpace, IsLineBreak, FirstClosing, Written;
    var v := "\n" + (rest + tail);
    var w: string :| rest + tail == next + w && w != "" && w[0] == '\n';
    assert v == "\n" + next + w;
    NoClosing(next, w);
    assert v[1..] == rest + tail;
    SkipLine(line, v, Match(rest, body));
    assert line + "\n" + rest + tail == line + v;
  }

  lemma JoinStarts(lines: seq<string>, tail: string)
    requires lines != [] && tail != "" && tail[0] == '\n'
    ensures exists w: string :: JoinLines(lines) + tail == lines[0] + w && w != "" && w[0] == '\n'
  {
    if |lines| == 1 {
      assert JoinLines(lines) + tail == lines[0] + tail;
    } else {
      var w := "\n" + JoinLines(lines[1..]) + tail;
      assert JoinLines(lines) + tail == lines[0] + w;
    }
  }

  lemma {:induction false} JoinLast(lines: seq<string>, last: string)
    requires lines != []
    ensures JoinLines(lines + [last]) == JoinLines(lines) + "\n" + last
  {
    if |lines| > 1 {
      JoinLast(lines[1..], last);
      assert (lines + [last])[1..] == lines[1..] + [last];
      assert lines[0] + "\n" + (JoinLines(lines[1..]) + "\n" + last) == lines[0] + "\n" + JoinLines(lines[1..]) + "\n" + last;
    } else {
      assert (lines + [last])[1..] == [last];
    }
  }

  lemma Wrapped(lines: seq<string>)
    requires lines != []
    ensures JoinLines(["---"] + lines + ["---"]) == "---" + "\n" + (JoinLines(lines) + "\n" + "---")
  {
    JoinLast(lines, "---");
    var all := ["---"] + lines + ["---"];
    assert all[0] == "---" && all[1..] == lines + ["---"];
  }

  lemma {:induction false} JoinedSplits(lines: seq<string>)
    requires forall i :: 0 <= i < |lines| ==> Written(lines[i])
    ensures var back := SplitLines(JoinLines(lines));
      |back| == |lines| && forall i :: 0 <= i < |lines| ==> Bare(back[i]) == lines[i]
  {
    hide SplitLines, Bare, Written;
    if lines == [] {
      SplitNothing();
    } else {
      FirstLine(lines[0], "");
      if |lines| == 1 {
        SplitOnly(lines[0]);
      } else {
        var rest := JoinLines(lines[1..]);
        JoinedSplits(lines[1..]);
        SplitFirst(lines[0], rest);
        FirstLine(lines[0], "\n" + rest);
        var back := SplitLines(rest);
        forall i | 1 <= i < |lines| ensures Bare(([lines[0] + "\n"] + back)[i]) == lines[i] {
          assert Bare(back[i - 1]) == lines[1..][i - 1];
        }
      }
    }
  }

  lemma SplitNothing()
    ensures SplitLines("") == []
  {
  }

  lemma SplitOnly(line: string)
    requires Written(line)
    ensures SplitLines(line) == [line]
  {
    hide LineLength, IsSpace, IsLineBreak;
    FirstLine(line, "");
    assert line + "" == line;
    assert SplitLines(line[|line|..]) == [];
  }

  lemma SplitFirst(line: string, rest: string)
    requires Written(line)
    ensures SplitLines(line + "\n" + rest) == [line + "\n"] + SplitLines(rest)
  {
    hide LineLength, IsSpace, IsLineBreak;
    var s := line + "\n" + rest;
    FirstLine(line, "\n" + rest);
    assert s == line + ("\n" + rest);
    assert s[..|line| + 1] == line + "\n" && s[|line| + 1..] == rest;
  }

  lemma FirstLine(first: string, v: string)
    requires Written(first) && (v == "" || v[0] == '\n')
    ensures LineLength(first + v) == |first| + if v == "" then 0 else 1
    ensures Bare(first) == first && (v != "" ==> Bare(first + "\n") == first)
  {
    hide IsSpace, IsLineBreak;
    Colon();
    assert forall i :: 0 <= i < |first| ==> first[i] in first && (first + v)[i] == first[i];
    BreakIs(first + v, |first|);
    BreakIs(first, |first|);
    BreakIs(first + "\n", |first|);
    assert v != "" ==> (first + v)[|first|] == '\n';
  }

  lemma {:induction false} PairsBack(lines: seq<string>, ps: seq<Pair>)
    requires |lines| == |ps| && forall i :: 0 <= i < |lines| ==> PairOf(Bare(lines[i])) == Some(ps[i])
    ensures PairsOf(lines) == ps
  {
    hide *;
    if lines == [] {
      PairsNone();
    } else {
      var n := |lines| - 1;
      PairsBack(lines[..n], ps[..n]);
      PairsNext(lines, n);
      assert lines[..n + 1] == lines && ps == ps[..n] + [ps[n]];
    }
  }

  /** Clean pairs written in front of a body that begins with text are read back. */
  lemma ReadBack(ps: seq<Pair>, body: string)
    requires ps != [] && AllClean(ps) && BehindBlank(body).None?
    ensures Parsed(JoinLines(["---"] + LinesOf(ps) + ["---"]) + "\n" + body) == (ps, body)
  {
    hide *;
    var lines := LinesOf(ps);
    WrittenLines(ps);
    Wrapped(lines);
    var block := JoinLines(lines);
    var tail := "\n---\n" + body;
    var raw := JoinLines(["---"] + lines + ["---"]) + "\n" + body;
    assert raw == "---" + ("\n" + (block + tail)) by {
      assert "\n" + "---" + "\n" == "\n---\n";
    }
    Closes(body);
    BlockFound(lines, tail, body);
    JoinStarts(lines, tail);
    Starts(lines[0], block + tail);
    OpensOnce(raw, block + tail, Match(block, body));
    JoinedSplits(lines);
    PairsBack(SplitLines(block), ps);
    ParsedCases(raw);
  }

  lemma Closes(body: string)
    requires BehindBlank(body).None?
    ensures Closing("\n---\n" + body) == Some(body)
  {
    hide IsSpace;
    Colon();
    var t := "\n---\n" + body;
    assert t[4..] == "\n" + body && ("\n" + body)[1..] == body;
  }

  lemma Starts(line: string, t: string)
    requires Written(line) && exists w: string :: t == line + w && w != "" && w[0] == '\n'
    ensures t != "" && !IsSpace(t[0])
  {
  }

  lemma OpensOnce(raw: string, t: string, m: Match)
    requires raw == "---" + ("\n" + t) && t != "" && !IsSpace(t[0]) && FirstClosing(t) == Some(m)
    ensures Matched(raw) == Some(m)
  {
    hide IsSpace, FirstClosing;
    Colon();
    assert raw[3..] == "\n" + t && ("\n" + t)[1..] == t;
    assert Opened(t).None?;
  }

  // ----------------------------------------------------------------- results

  /** Reading a rendered agent gives the merged pairs and the template's body. */
  lemma ParseOfRendered(template: string, role: Role)
    requires CleanRole(role) && Parsed(template).0 != []
    ensures Parsed(Rendered(template, role)) == (Merged(Parsed(template).0, role), Parsed(template).1)
  {
    hide *;
    var pairs, body := Parsed(template).0, Parsed(template).1;
    ParsedCases(template);
    BodyStartsWithText(template);
    PairsAreClean(SplitLines(Matched(template).value.block));
    MergedIsClean(pairs, role);
    RenderedCases(template, role);
    ReadBack(Merged(pairs, role), body);
  }

  lemma MergedIsClean(pairs: seq<Pair>, role: Role)
    requires AllClean(pairs) && CleanRole(role)
    ensures AllClean(Merged(pairs, role)) && Merged(pairs, role) != []
  {
    hide Kept, Missing, Clean;
    KeptAreClean(pairs, role);
    MissingIn(Kept(pairs, Updates(role)), Updates(role));
    UpdatesAreClean(role);
    MergedSettled(pairs, role);
    assert Updates(role)[0] in Updates(role);
  }

  /** Rendering twice is rendering once. */
  lemma RenderTwice(template: string, role: Role)
    requires CleanRole(role)
    ensures Rendered(Rendered(template, role), role) == Rendered(template, role)
  {
    hide *;
    RenderedCases(template, role);
    if Parsed(template).0 != [] {
      var ps := Merged(Parsed(template).0, role);
      ParseOfRendered(template, role);
      MergedSettled(Parsed(template).0, role);
      SettledMerged(ps, role);
      RenderedCases(Rendered(template, role), role);
    }
  }
}
