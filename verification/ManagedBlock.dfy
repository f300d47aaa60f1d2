/** The block of AGENTS.md that the framework owns, between two markers. */
module ManagedBlock {
  import opened Text

  datatype Markers = Markers(start: string, end: string) {
    /** What the proofs need of a marker pair: neither can overlap the other,
        itself, a line feed, or white space that gets trimmed. */
    ghost predicate Sound() {
      && start != "" && end != "" && start[0] == end[0]
      && start[0] !in start[1..] && start[0] !in end[1..]
      && '\n' !in start && '\n' !in end
      && !IsSpace(start[|start| - 1]) && !IsSpace(end[|end| - 1])
      && !Contains(start, end)
    }
  }

  const GOVERNED := Markers("<!-- governed-ai:start -->", "<!-- governed-ai:end -->")

  function Trim(body: string): string {
    Strip(body, IsNewline)
  }

  function Extract(m: Markers, content: string): Option<string> {
    var start := Find(content, m.start);
    var end := Find(content, m.end);
    if start == -1 || end == -1 || end < start then None
    else if end < start + |m.start| then Some("")
    else Some(Trim(content[start + |m.start|..end]))
  }

  function Wrap(m: Markers, body: string): string {
    m.start + "\n" + Trim(body) + "\n" + m.end
  }

  function Merge(m: Markers, existing: string, body: string): string {
    if Contains(existing, m.start) && Contains(existing, m.end) then
      var start := Find(existing, m.start);
      var end := Find(existing, m.end) + |m.end|;
      existing[..start] + Wrap(m, body) + StripLeft(existing[end..], IsNewline)
    else
      StripRight(existing, IsSpace) + "\n\n" + Wrap(m, body) + "\n"
  }

  /** What writing the file leaves in it, whether or not it was there. */
  function Written(m: Markers, existing: Option<string>, body: string): string {
    match existing
    case Some(text) => Merge(m, text, body)
    case None => Wrap(m, body) + "\n"
  }

  /** Neither marker, or the first start marker in front of the first end marker. */
  predicate WellOrdered(m: Markers, content: string) {
    var start, end := Find(content, m.start), Find(content, m.end);
    (start == -1 && end == -1) || (start != -1 && start <= end)
  }

  predicate HasBlock(m: Markers, content: string) {
    WellOrdered(m, content) && Contains(content, m.start)
  }

  lemma StartLacksEnd(s: string, e: string)
    requires |s| == 26 && |e| == 24
    requires s[17] != e[17] && s[1] != e[0] && s[2] != e[0]
    ensures !Contains(s, e)
  {
    forall i | 0 <= i <= 26 ensures !At(s, e, i) {
      if i == 0 {
        assert s[..24][17] == s[17];
      } else if i <= 2 {
        assert s[i..i + 24][0] == s[i];
      }
    }
  }

  lemma MarkersSound(m: Markers, startTail: string, endTail: string)
    requires m.start == "<" + startTail && m.end == "<" + endTail
    requires |startTail| == 25 && '<' !in startTail && '\n' !in startTail && startTail[24] == '>'
    requires |endTail| == 23 && '<' !in endTail && '\n' !in endTail && endTail[22] == '>'
    requires startTail[16] != endTail[16]
    ensures m.Sound()
  {
    hide Contains;
    assert m.start[1..] == startTail && m.end[1..] == endTail;
    assert m.start[1] == startTail[0] && m.start[2] == startTail[1];
    assert m.start[17] == startTail[16] && m.end[17] == endTail[16];
    StartLacksEnd(m.start, m.end);
  }

  const START_TAIL := "!-- governed-ai:start -->"
  const END_TAIL := "!-- governed-ai:end -->"

  lemma GovernedTails()
    ensures GOVERNED.start == "<" + START_TAIL && GOVERNED.end == "<" + END_TAIL
  {
  }

  lemma StartTailPlain()
    ensures |START_TAIL| == 25 && '<' !in START_TAIL && '\n' !in START_TAIL && START_TAIL[24] == '>' && START_TAIL[16] == 's'
  {
  }

  lemma EndTailPlain()
    ensures |END_TAIL| == 23 && '<' !in END_TAIL && '\n' !in END_TAIL && END_TAIL[22] == '>' && END_TAIL[16] == 'e'
  {
  }

  lemma GovernedMarkersSound()
    ensures GOVERNED.Sound()
  {
    hide *;
    GovernedTails();
    StartTailPlain();
    EndTailPlain();
    MarkersSound(GOVERNED, START_TAIL, END_TAIL);
  }

  // ---------------------------------------------------- what a merge yields

  lemma TrimBody(body: string)
    ensures Trim("\n" + Trim(body) + "\n") == Trim(body)
  {
    var inner := Trim(body);
    var s := "\n" + inner + "\n";
    StripTrims(body, IsNewline);
    if inner == "" {
      StripAll(s, IsNewline);
    } else {
      StripUnique(s, IsNewline, 1, 1 + |inner|);
      assert s[1..1 + |inner|] == inner;
    }
  }

  lemma NewlineInFront(text: string, pat: string)
    requires pat != "" && '\n' !in pat && !Contains(text, pat)
    ensures !Contains("\n" + text, pat)
  {
    forall i ensures !At("\n" + text, pat, i) {
      if i >= 1 {
        AtShift("\n", text, pat, i - 1);
      } else if i == 0 && |pat| <= |"\n" + text| {
        assert ("\n" + text)[..|pat|][0] == '\n';
        assert pat[0] in pat;
      }
    }
  }

  /** Around a block, the start marker is found where the block puts it ... */
  lemma FindStartInFrame(m: Markers, before: string, body: string, after: string)
    requires m.Sound() && !Contains(before, m.start)
    ensures Find(before + Wrap(m, body) + after, m.start) == |before|
  {
    var tail := Wrap(m, body) + after;
    assert tail[..|m.start|] == m.start;
    FindIs(tail, m.start, 0);
    FindSkips(before, tail, m.start);
    assert before + Wrap(m, body) + after == before + tail;
  }

  /** ... and so is the end marker. */
  lemma FindEndInFrame(m: Markers, before: string, body: string, after: string)
    requires m.Sound() && !Contains(before, m.end) && !Contains(Trim(body), m.end)
    ensures Find(before + Wrap(m, body) + after, m.end) == |before| + |m.start| + 2 + |Trim(body)|
  {
    hide Find, Contains, Trim;
    var inner := Trim(body);
    var tail3 := "\n" + (m.end + after);
    var tail2 := ("\n" + inner) + tail3;
    var tail1 := m.start + tail2;
    assert before + Wrap(m, body) + after == before + tail1;
    assert tail3[1..1 + |m.end|] == m.end;
    assert !At(tail3, m.end, 0) by {
      assert m.end[0] in m.end;
      assert tail3[..|m.end|][0] == '\n';
    }
    FindIs(tail3, m.end, 1);
    NewlineInFront(inner, m.end);
    FindSkips("\n" + inner, tail3, m.end);
    FindSkips(m.start, tail2, m.end);
    FindSkips(before, tail1, m.end);
  }

  lemma ExtractFromFrame(m: Markers, before: string, body: string, after: string)
    requires m.Sound() && !Contains(before, m.start) && !Contains(before, m.end)
    requires !Contains(Trim(body), m.end)
    ensures Extract(m, before + Wrap(m, body) + after) == Some(Trim(body))
  {
    hide Find, Contains, Trim;
    var inner := Trim(body);
    var text := before + Wrap(m, body) + after;
    FindStartInFrame(m, before, body, after);
    FindEndInFrame(m, before, body, after);
    var lo := |before| + |m.start|;
    assert text[lo..lo + 2 + |inner|] == "\n" + inner + "\n";
    TrimBody(body);
  }

  /** Cutting at or in front of the first occurrence leaves none. */
  lemma PrefixFree(text: string, pat: string, i: nat)
    requires i <= |text| && pat != ""
    requires Find(text, pat) == -1 || i <= Find(text, pat)
    ensures !Contains(text[..i], pat)
  {
    if Contains(text[..i], pat) {
      SubstringContains(text, 0, i, pat);
    }
  }

  /** A merge is a frame: text in front, the block, text behind. */
  function Before(m: Markers, existing: string): string {
    if Contains(existing, m.start) && Contains(existing, m.end)
    then existing[..Find(existing, m.start)]
    else StripRight(existing, IsSpace) + "\n\n"
  }

  function After(m: Markers, existing: string): string {
    if Contains(existing, m.start) && Contains(existing, m.end)
    then StripLeft(existing[Find(existing, m.end) + |m.end|..], IsNewline)
    else "\n"
  }

  lemma BlankLineBehind(text: string, pat: string)
    requires pat != "" && '\n' !in pat
    ensures Contains(text + "\n\n", pat) <==> Contains(text, pat)
  {
    assert '\n' !in pat[1..];
    var t := text + "\n\n";
    forall i ensures At(t, pat, i) <==> At(text, pat, i) {
      AtPrefix(text, "\n\n", pat, i);
      if 0 <= i && |text| < i + |pat| <= |t| {
        assert t[i..i + |pat|][|pat| - 1] == '\n';
        assert pat[|pat| - 1] in pat;
      }
    }
  }

  lemma BeforeIsFree(m: Markers, existing: string)
    requires m.Sound() && WellOrdered(m, existing)
    ensures !Contains(Before(m, existing), m.start) && !Contains(Before(m, existing), m.end)
  {
    if Contains(existing, m.start) {
      var i := Find(existing, m.start);
      PrefixFree(existing, m.start, i);
      PrefixFree(existing, m.end, i);
    } else {
      var kept := StripRight(existing, IsSpace);
      PrefixFree(existing, m.start, |kept|);
      PrefixFree(existing, m.end, |kept|);
      BlankLineBehind(kept, m.start);
      BlankLineBehind(kept, m.end);
    }
  }

  /** Extraction never returns text that contains the end marker. */
  lemma ExtractLacksEnd(m: Markers, content: string)
    requires m.Sound() && Extract(m, content).Some?
    ensures !Contains(Extract(m, content).value, m.end)
  {
    hide Find, Contains, Strip;
    var start, end := Find(content, m.start), Find(content, m.end);
    var lo := start + |m.start|;
    if lo <= end {
      var a, b := StripSlice(content[lo..end], IsNewline);
      SliceLacks(content, m.end, lo, a, b);
      assert Extract(m, content) == Some(Trim(content[lo..end]));
    } else {
      assert Extract(m, content) == Some("");
      EmptyLacks(m.end);
    }
  }

  lemma EmptyLacks(pat: string)
    requires pat != ""
    ensures !Contains("", pat)
  {
  }

  lemma SliceLacks(text: string, pat: string, lo: nat, a: nat, b: nat)
    requires pat != "" && a <= b && lo + b <= Find(text, pat) <= |text|
    ensures !Contains(text[lo..Find(text, pat)][a..b], pat)
  {
    var end := Find(text, pat);
    if Contains(text[lo..end][a..b], pat) {
      SubstringContains(text[lo..end], a, b, pat);
      SubstringContains(text, lo, end, pat);
    }
  }

  lemma TrimKeepsEnd(m: Markers, body: string)
    requires m.Sound()
    ensures Contains(body, m.end) <==> Contains(Trim(body), m.end)
  {
    var lo, hi := StripSlice(body, IsNewline);
    if Contains(body[lo..hi], m.end) {
      SubstringContains(body, lo, hi, m.end);
    }
    if Contains(body, m.end) {
      var i := Find(body, m.end);
      ForeignEndsInside(body, m.end, lo, hi, i);
    }
  }

  /** An occurrence without line feeds lies inside whatever newline-trimming keeps. */
  lemma ForeignEndsInside(s: string, pat: string, lo: nat, hi: nat, i: nat)
    requires pat != "" && '\n' !in pat && lo <= hi <= |s| && At(s, pat, i)
    requires forall k :: 0 <= k < lo || hi <= k < |s| ==> s[k] == '\n'
    ensures Contains(s[lo..hi], pat)
  {
    var p := s[i..i + |pat|];
    assert s[i] == p[0] && p[0] in pat;
    assert s[i + |pat| - 1] == p[|pat| - 1] && p[|pat| - 1] in pat;
    SliceSlice(s, lo, hi, i - lo, i - lo + |pat|);
    assert At(s[lo..hi], pat, i - lo);
  }

  lemma MergeIsFrame(m: Markers, existing: string, body: string)
    ensures Merge(m, existing, body) == Before(m, existing) + Wrap(m, body) + After(m, existing)
  {
    hide Contains, Find, Wrap;
  }

  lemma TailSlice(text: string, end: nat) returns (cut: nat)
    requires end <= |text|
    ensures end <= cut <= |text| && StripLeft(text[end..], IsNewline) == text[cut..]
    ensures forall k :: end <= k < cut ==> text[k] == '\n'
  {
    var tail := text[end..];
    var kept := StripLeft(tail, IsNewline);
    var n := |tail| - |kept|;
    assert kept == tail[n..];
    assert forall k :: 0 <= k < n ==> tail[k] == '\n';
    hide *;
    cut := end + n;
    assert tail[n..] == text[cut..];
    forall k | end <= k < cut ensures text[k] == '\n' {
      assert text[k] == tail[k - end];
    }
  }

  /** On text with a block, a merge keeps everything in front of the block to
      the byte, and behind it drops line feeds only. */
  lemma MergeKeepsSurroundings(m: Markers, existing: string, body: string) returns (cut: nat)
    requires m.Sound() && HasBlock(m, existing)
    ensures Find(existing, m.end) + |m.end| <= cut <= |existing|
    ensures forall k :: Find(existing, m.end) + |m.end| <= k < cut ==> existing[k] == '\n'
    ensures Merge(m, existing, body)
      == existing[..Find(existing, m.start)] + Wrap(m, body) + existing[cut..]
  {
    hide *;
    MergeIsFrame(m, existing, body);
    BlockSurroundings(m, existing);
    cut := TailSlice(existing, Find(existing, m.end) + |m.end|);
  }

  lemma BlockSurroundings(m: Markers, existing: string)
    requires m.Sound() && HasBlock(m, existing)
    ensures 0 <= Find(existing, m.start) <= Find(existing, m.end)
    ensures Before(m, existing) == existing[..Find(existing, m.start)]
    ensures After(m, existing) == StripLeft(existing[Find(existing, m.end) + |m.end|..], IsNewline)
  {
    hide Contains, Find, FindFrom, At, StripLeft, StripRight, IsSpace, IsNewline, Markers.Sound;
  }

  lemma RoundTripWellOrdered(m: Markers, existing: string, body: string)
    requires m.Sound() && WellOrdered(m, existing) && !Contains(body, m.end)
    ensures Extract(m, Merge(m, existing, body)) == Some(Trim(body))
  {
    hide Find, Contains, Extract, Trim, Merge, Before, After;
    TrimKeepsEnd(m, body);
    BeforeIsFree(m, existing);
    MergeIsFrame(m, existing, body);
    ExtractFromFrame(m, Before(m, existing), body, After(m, existing));
  }

  /** An end marker in front of every start marker hides the block for good. */
  lemma EndInFront(m: Markers, before: string, rest: string)
    requires m.Sound() && Contains(before, m.end) && !Contains(before, m.start)
    requires rest != "" && rest[0] !in m.start[1..]
    ensures Extract(m, before + rest) == None
  {
    hide Contains, Find;
    FoundInPrefix(before, rest, m.end);
    FindSkips(before, rest, m.start);
  }

  /** A lone start marker swallows what is appended behind it. */
  lemma StartInFront(m: Markers, before: string, body: string)
    requires m.Sound() && Contains(before, m.start) && !Contains(before, m.end)
    requires !Contains(Trim(body), m.end)
    ensures Extract(m, before + Wrap(m, body) + "\n") != Some(Trim(body))
  {
    hide Contains, Trim, Find;
    var rest := Wrap(m, body) + "\n";
    Assoc(before, Wrap(m, body), "\n");
    FoundInPrefix(before, rest, m.start);
    FindEndInFrame(m, before, body, "\n");
    SwallowedIsLonger(m, before, body, Find(before + rest, m.start) + |m.start|);
  }

  lemma FoundInPrefix(before: string, rest: string, pat: string)
    requires Contains(before, pat)
    ensures 0 <= Find(before + rest, pat) <= Find(before, pat)
  {
    var i := Find(before, pat);
    AtPrefix(before, rest, pat, i);
    assert At(before + rest, pat, i);
  }

  lemma SwallowedIsLonger(m: Markers, before: string, body: string, lo: nat)
    requires m.Sound() && lo <= |before|
    ensures var text := before + Wrap(m, body) + "\n";
      |Trim(text[lo..|before| + |m.start| + 2 + |Trim(body)|])| > |Trim(body)|
  {
    TrimmedBody(body);
    hide Contains, Trim;
    var inner := Trim(body);
    var text := before + Wrap(m, body) + "\n";
    var i, hi := |before|, |before| + |m.start| + 2 + |inner|;
    var j := if inner == "" then i + |m.start| - 1 else i + |m.start| + |inner|;
    assert m.start[0] in m.start && m.start[|m.start| - 1] in m.start;
    assert text[i] == m.start[0];
    assert text[j] == if inner == "" then m.start[|m.start| - 1] else inner[|inner| - 1];
    assert text[lo..hi][i - lo] == text[i] && text[lo..hi][j - lo] == text[j];
    TrimSpan(text[lo..hi], i - lo, j - lo);
  }

  lemma TrimSpan(s: string, i: nat, j: nat)
    requires i <= j < |s| && s[i] != '\n' && s[j] != '\n'
    ensures |Trim(s)| > j - i
  {
    StripSpan(s, IsNewline, i, j);
  }

  lemma TrimmedBody(body: string)
    ensures Trimmed(Trim(body), IsNewline)
  {
    StripTrims(body, IsNewline);
  }

  lemma StartMarkersInFront(m: Markers)
    requires m.Sound()
    ensures m.start[0] !in m.start[1..] && '\n' !in m.start[1..]
  {
  }

  lemma RoundTripFails(m: Markers, existing: string, body: string)
    requires m.Sound() && !WellOrdered(m, existing) && !Contains(body, m.end)
    ensures Extract(m, Merge(m, existing, body)) != Some(Trim(body))
  {
    TrimKeepsEnd(m, body);
    MergeIsFrame(m, existing, body);
    StartMarkersInFront(m);
    var before := Before(m, existing);
    var rest := Wrap(m, body) + After(m, existing);
    Assoc(before, Wrap(m, body), After(m, existing));
    if Contains(existing, m.start) && Contains(existing, m.end) {
      MisorderedFront(m, existing);
      assert rest[0] == m.start[0];
      EndInFront(m, before, rest);
    } else {
      LoneMarkerFront(m, existing);
      if Contains(existing, m.start) {
        StartInFront(m, before, body);
      } else {
        assert rest[0] == m.start[0];
        EndInFront(m, before, rest);
      }
    }
  }

  lemma MisorderedFront(m: Markers, existing: string)
    requires m.Sound() && 0 <= Find(existing, m.end) < Find(existing, m.start)
    ensures var before := existing[..Find(existing, m.start)];
      Contains(before, m.end) && !Contains(before, m.start)
  {
    var i, j := Find(existing, m.end), Find(existing, m.start);
    FirstChar(existing, m.start, j);
    if j < i + |m.end| { NotAcross(existing, m.end, i, j); }
    assert existing == existing[..j] + existing[j..];
    AtPrefix(existing[..j], existing[j..], m.end, i);
    assert At(existing[..j], m.end, i);
    PrefixFree(existing, m.start, j);
  }

  lemma FirstChar(text: string, pat: string, i: nat)
    requires pat != "" && At(text, pat, i)
    ensures text[i] == pat[0]
  {
    assert text[i..i + |pat|][0] == text[i];
  }

  /** A character that `pat` carries only in front is not inside an occurrence. */
  lemma NotAcross(text: string, pat: string, i: nat, j: nat)
    requires i < j < i + |pat| <= |text| && text[j] !in pat[1..]
    ensures !At(text, pat, i)
  {
    assert text[i..i + |pat|][j - i] == text[j] != pat[1..][j - i - 1] == pat[j - i];
  }

  lemma LoneMarkerFront(m: Markers, existing: string)
    requires m.Sound()
    ensures var before := StripRight(existing, IsSpace) + "\n\n";
      && (Contains(before, m.start) <==> Contains(existing, m.start))
      && (Contains(before, m.end) <==> Contains(existing, m.end))
  {
    var kept := StripRight(existing, IsSpace);
    BlankLineBehind(kept, m.start);
    BlankLineBehind(kept, m.end);
    TrailingSpace(existing, m.start);
    TrailingSpace(existing, m.end);
  }

  lemma TrailingSpace(text: string, pat: string)
    requires pat != "" && !IsSpace(pat[|pat| - 1])
    ensures Contains(StripRight(text, IsSpace), pat) <==> Contains(text, pat)
  {
    var kept := StripRight(text, IsSpace);
    var rest := text[|kept|..];
    assert text == kept + rest;
    forall i ensures At(kept, pat, i) <==> At(text, pat, i) {
      AtPrefix(kept, rest, pat, i);
      if 0 <= i && |kept| < i + |pat| <= |text| {
        assert text[i..i + |pat|][|pat| - 1] == text[i + |pat| - 1];
      }
    }
  }

  // ------------------------------------------------------------ main results

  /** Extracting what was merged gives the body back, exactly when the text has
      no marker or its markers in order, and the body does not hold the end marker. */
  lemma RoundTrip(m: Markers, existing: string, body: string)
    requires m.Sound()
    ensures Extract(m, Merge(m, existing, body)) == Some(Trim(body))
      <==> WellOrdered(m, existing) && !Contains(body, m.end)
  {
    hide Contains, Extract, Merge, Trim, WellOrdered, Markers.Sound;
    var merged := Merge(m, existing, body);
    if Contains(body, m.end) {
      TrimKeepsEnd(m, body);
      if Extract(m, merged).Some? {
        ExtractLacksEnd(m, merged);
      }
    } else if WellOrdered(m, existing) {
      RoundTripWellOrdered(m, existing, body);
    } else {
      RoundTripFails(m, existing, body);
    }
  }

  /** On text that has a block, only the last of two merges shows; with the
      same body twice this is idempotence. */
  lemma LastMergeWins(m: Markers, existing: string, first: string, second: string)
    requires m.Sound() && HasBlock(m, existing) && !Contains(first, m.end)
    ensures HasBlock(m, Merge(m, existing, first))
    ensures Merge(m, Merge(m, existing, first), second) == Merge(m, existing, second)
  {
    TrimKeepsEnd(m, first);
    BeforeIsFree(m, existing);
    MergeIsFrame(m, existing, first);
    MergeIsFrame(m, existing, second);
    RemergeFrame(m, Before(m, existing), first, After(m, existing), second);
  }

  lemma RemergeFrame(m: Markers, before: string, first: string, after: string, second: string)
    requires m.Sound() && !Contains(before, m.start) && !Contains(before, m.end)
    requires !Contains(Trim(first), m.end)
    ensures HasBlock(m, before + Wrap(m, first) + after)
    ensures Merge(m, before + Wrap(m, first) + after, second)
      == before + Wrap(m, second) + StripLeft(after, IsNewline)
  {
    hide Contains, Find, Trim;
    FindStartInFrame(m, before, first, after);
    FindEndInFrame(m, before, first, after);
    var text := before + Wrap(m, first) + after;
    assert text[..|before|] == before;
    assert text[|before| + |Wrap(m, first)|..] == after;
  }

  /** On text without markers the first merge appends a block and a line feed
      that the second one drops again; from then on merging changes nothing. */
  lemma AppendThenSettle(m: Markers, existing: string, body: string)
    requires m.Sound() && WellOrdered(m, existing) && !HasBlock(m, existing)
    requires !Contains(body, m.end)
    ensures var once := Merge(m, existing, body);
      var twice := Merge(m, once, body);
      && HasBlock(m, once) && once == twice + "\n"
      && Merge(m, twice, body) == twice
  {
    TrimKeepsEnd(m, body);
    BeforeIsFree(m, existing);
    MergeIsFrame(m, existing, body);
    hide *;
    AppendedAfter(m, existing);
    SettleFrame(m, Before(m, existing), body);
  }

  lemma AppendedAfter(m: Markers, existing: string)
    requires WellOrdered(m, existing) && !HasBlock(m, existing)
    ensures After(m, existing) == "\n"
  {
  }

  lemma SettleFrame(m: Markers, before: string, body: string)
    requires m.Sound() && !Contains(before, m.start) && !Contains(before, m.end)
    requires !Contains(Trim(body), m.end)
    ensures var once := before + Wrap(m, body) + "\n"; var twice := before + Wrap(m, body);
      && HasBlock(m, once) && Merge(m, once, body) == twice
      && once == twice + "\n" && Merge(m, twice, body) == twice
  {
    assert StripLeft("\n", IsNewline) == StripLeft("", IsNewline) == "";
    hide *;
    RemergeFrame(m, before, body, "\n", body);
    RemergeFrame(m, before, body, "", body);
    TrailingEmpty(before + Wrap(m, body));
  }

  lemma TrailingEmpty(s: string)
    ensures s + "" == s
  {
  }

  /** A file written where none was has a block too, and gives the body back. */
  lemma FreshFile(m: Markers, body: string)
    requires m.Sound() && !Contains(body, m.end)
    ensures HasBlock(m, Written(m, None, body))
    ensures Extract(m, Written(m, None, body)) == Some(Trim(body))
  {
    TrimKeepsEnd(m, body);
    EmptyLacks(m.start);
    EmptyLacks(m.end);
    FreshFrame(m, "", body);
    LeadingEmpty(Wrap(m, body));
  }

  /** A file gives the body last written to it back, exactly when its text before,
      if there was one, has no marker or its markers in order, and the body does
      not hold the end marker. */
  lemma WrittenGivesBackIff(m: Markers, existing: Option<string>, body: string)
    requires m.Sound()
    ensures Extract(m, Written(m, existing, body)) == Some(Trim(body))
      <==> (existing.Some? ==> WellOrdered(m, existing.value)) && !Contains(body, m.end)
  {
    hide Contains, Extract, Merge, Trim, WellOrdered, Markers.Sound, Wrap;
    if existing.Some? {
      RoundTrip(m, existing.value, body);
    } else if Contains(body, m.end) {
      var written := Written(m, None, body);
      TrimKeepsEnd(m, body);
      if Extract(m, written).Some? { ExtractLacksEnd(m, written); }
    } else {
      FreshFile(m, body);
    }
  }

  lemma LeadingEmpty(s: string)
    ensures "" + s == s
  {
  }

  lemma FreshFrame(m: Markers, before: string, body: string)
    requires m.Sound() && !Contains(before, m.start) && !Contains(before, m.end)
    requires !Contains(Trim(body), m.end)
    ensures HasBlock(m, before + Wrap(m, body) + "\n")
    ensures Extract(m, before + Wrap(m, body) + "\n") == Some(Trim(body))
  {
    hide *;
    ExtractFromFrame(m, before, body, "\n");
    RemergeFrame(m, before, body, "\n", body);
  }
}
