/** Lines of a text, broken where the host language's `splitlines` breaks them. */
module Lines {
  import opened Text

  function FirstBreak(s: string): (k: nat)
    ensures k <= |s| && forall i :: 0 <= i < k ==> !IsLineBreak(s[i])
    ensures k < |s| ==> IsLineBreak(s[k])
  {
    if s == "" || IsLineBreak(s[0]) then 0
    else
      assert s == [s[0]] + s[1..];
      1 + FirstBreak(s[1..])
  }

  /** Length of the first line, its ending included. */
  function LineLength(s: string): (n: nat)
    ensures n <= |s| && (s != "" ==> n > 0)
  {
    var k := FirstBreak(s);
    if k == |s| then k
    else if s[k] == '\r' && k + 1 < |s| && s[k + 1] == '\n' then k + 2
    else k + 1
  }

  /** `text.splitlines(keepends=True)`. */
  function SplitLines(s: string): seq<string> {
    if s == "" then [] else [s[..LineLength(s)]] + SplitLines(s[LineLength(s)..])
  }

  function Join(lines: seq<string>): string {
    if lines == [] then "" else lines[0] + Join(lines[1..])
  }

  lemma JoinCons(line: string, lines: seq<string>)
    ensures Join([line] + lines) == line + Join(lines)
  {
    assert ([line] + lines)[1..] == lines;
  }

  lemma JoinNone()
    ensures Join([]) == ""
  {
  }

  lemma {:induction false} JoinSplit(s: string)
    ensures Join(SplitLines(s)) == s
  {
    hide Join, LineLength, FirstBreak, IsLineBreak;
    if s == "" {
      JoinNone();
    } else {
      var n := LineLength(s);
      JoinSplit(s[n..]);
      JoinCons(s[..n], SplitLines(s[n..]));
    }
  }

  /** A line is broken at its end only, where it is broken first, and never between
      a carriage return and a line feed. */
  predicate IsLine(line: string) {
    && line != ""
    && forall k :: 0 <= k < |line| && IsLineBreak(line[k]) ==>
         k == |line| - 1 || (k == |line| - 2 && line[k] == '\r' && line[k + 1] == '\n')
  }

  predicate Broken(line: string) { line != "" && IsLineBreak(line[|line| - 1]) }

  lemma FirstLineIs(s: string)
    requires s != ""
    ensures var n := LineLength(s);
      IsLine(s[..n]) && (n < |s| ==> Broken(s[..n]) && (s[n - 1] == '\r' ==> s[n] != '\n'))
  {
    hide IsLineBreak;
    ReturnBreaks();
    var n, k := LineLength(s), FirstBreak(s);
    assert forall i :: 0 <= i < n ==> s[..n][i] == s[i];
  }

  lemma ReturnBreaks()
    ensures IsLineBreak('\r') && IsLineBreak('\n')
  {
  }

  /** So the lines of a text are lines, all but the last end in a break, and the two
      characters of one are not parted. */
  lemma {:induction false} LinesAre(s: string, i: nat)
    requires i < |SplitLines(s)|
    ensures var lines := SplitLines(s);
      && IsLine(lines[i])
      && (i + 1 < |lines| ==> Broken(lines[i]) && lines[i + 1] != "")
      && (i + 1 < |lines| && lines[i][|lines[i]| - 1] == '\r' ==> lines[i + 1][0] != '\n')
  {
    hide IsLine, LineLength, IsLineBreak;
    FirstLineIs(s);
    var n := LineLength(s);
    if i > 0 {
      LinesAre(s[n..], i - 1);
    } else if s[n..] != "" {
      NextLine(s[n..]);
    }
  }

  lemma NextLine(s: string)
    requires s != ""
    ensures SplitLines(s) != [] && SplitLines(s)[0] != "" && SplitLines(s)[0][0] == s[0]
  {
  }

  lemma BreakIs(s: string, k: nat)
    requires k <= |s| && (forall i :: 0 <= i < k ==> !IsLineBreak(s[i])) && (k < |s| ==> IsLineBreak(s[k]))
    ensures FirstBreak(s) == k
  {
    hide IsLineBreak;
  }
}
