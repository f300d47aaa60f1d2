/** Finding the governed handoff in the text an agent returns: the whole text, or
    the JSON values in it, provided all that conform agree. */
module Handoff {
  import opened Text

  datatype Json =
    | Null
    | Bool(b: bool)
    | Number(digits: string)
    | Str(s: string)
    | List(items: seq<Json>)
    | Dict(fields: map<string, Json>)

  // -------------------------------------------------------------- conformance

  const SUMMARY_MAX := 4000

  predicate IsStr(fields: map<string, Json>, key: string) { key in fields && fields[key].Str? }
  predicate IsList(fields: map<string, Json>, key: string) { key in fields && fields[key].List? }

  predicate Check(value: Json) {
    value.Dict? && IsStr(value.fields, "name") && IsStr(value.fields, "status")
  }

  predicate Conforming(value: Json) {
    && value.Dict?
    && var f := value.fields;
    && IsStr(f, "summary") && IsList(f, "checks") && IsList(f, "artifacts")
    && ("requested_commands" in f ==> f["requested_commands"].List?)
    && ("usage" in f ==> f["usage"].Dict?)
    && (forall check :: check in f["checks"].items ==> Check(check))
    && (forall artifact :: artifact in f["artifacts"].items ==> artifact.Dict?)
  }

  function Cut(s: string): string { if |s| <= SUMMARY_MAX then s else s[..SUMMARY_MAX] }

  /** The handoffs the contract admits. */
  type Governed = value: Json | Conforming(value) witness EMPTY_HANDOFF

  const EMPTY_HANDOFF := Dict(map["summary" := Str(""), "checks" := List([]), "artifacts" := List([])])

  function Coerce(value: Governed): (r: Json)
  {
    var f := value.fields;
    Dict(map[
      "summary" := Str(Cut(f["summary"].s)),
      "checks" := f["checks"],
      "artifacts" := f["artifacts"],
      "requested_commands" := if "requested_commands" in f then f["requested_commands"] else List([]),
      "usage" := if "usage" in f then f["usage"] else Dict(map[])])
  }

  /** A coerced handoff conforms, and coercing it again changes nothing. */
  lemma CoerceIsIdempotent(value: Governed)
    ensures Conforming(Coerce(value)) && Coerce(Coerce(value)) == Coerce(value)
  {
    hide Check;
    var f, g := value.fields, Coerce(value).fields;
    KeysDiffer();
    assert g["checks"] == f["checks"] && g["artifacts"] == f["artifacts"] && g["summary"] == Str(Cut(f["summary"].s));
  }

  /** The returned handoff `h` holds of `v` its summary, cut, its checks and
      artifacts, its commands and usage if it has any; and nothing else. */
  predicate Holds(h: Json, v: Json) {
    && h.Dict? && v.Dict? && h.fields.Keys == {"summary", "checks", "artifacts", "requested_commands", "usage"}
    && v.fields.Keys >= {"summary", "checks", "artifacts"}
    && var f, g := v.fields, h.fields;
    && f["summary"].Str? && g["summary"].Str? && g["summary"].s <= f["summary"].s
    && (|f["summary"].s| <= 4000 ==> g["summary"] == f["summary"]) && (|f["summary"].s| > 4000 ==> |g["summary"].s| == 4000)
    && g["checks"] == f["checks"] && f["checks"].List? && g["artifacts"] == f["artifacts"] && f["artifacts"].List?
    && (forall check :: check in f["checks"].items ==>
          && check.Dict? && "name" in check.fields && check.fields["name"].Str?
          && "status" in check.fields && check.fields["status"].Str?)
    && (forall artifact :: artifact in f["artifacts"].items ==> artifact.Dict?)
    && (if "requested_commands" in f then g["requested_commands"] == f["requested_commands"] && f["requested_commands"].List?
        else g["requested_commands"] == List([]))
    && (if "usage" in f then g["usage"] == f["usage"] && f["usage"].Dict? else g["usage"] == Dict(map[]))
  }

  lemma CoerceHolds(value: Governed)
    ensures Holds(Coerce(value), value)
  {
    KeysDiffer();
  }

  lemma KeysDiffer()
    ensures "summary" != "checks" && "summary" != "artifacts" && "summary" != "requested_commands" && "summary" != "usage"
    ensures "checks" != "artifacts" && "checks" != "requested_commands" && "checks" != "usage"
    ensures "artifacts" != "requested_commands" && "artifacts" != "usage" && "requested_commands" != "usage"
  {
    assert "summary"[0] == 's' && "checks"[0] == 'c' && "artifacts"[0] == 'a' && "requested_commands"[0] == 'r' && "usage"[0] == 'u';
  }

  // ----------------------------------------------------------------- scanning

  /** The JSON library: a value at a position and where it ends, and the text a
      value is written as with its keys sorted. */
  datatype Library = Library(raw: (string, nat) -> Option<(Json, nat)>, dump: Json -> string)

  predicate Bracket(c: char) { c == '{' || c == '[' }

  /** A value lies inside the text and is at least one character long. An object
      starts with a brace and ends with one. Objects and arrays are recognised by
      their own characters, whatever surrounds them. */
  ghost predicate Lawful(lib: Library) {
    && (forall t, i: nat :: lib.raw(t, i).Some? ==> Fits(t, i, lib.raw(t, i).value.0, lib.raw(t, i).value.1))
    && (forall t, i: nat, t', i': nat :: lib.raw(t, i).Some? && i < |t| && Bracket(t[i]) && SameText(t, i, lib.raw(t, i).value.1, t', i') ==>
      lib.raw(t', i') == Some((lib.raw(t, i).value.0, (i' + lib.raw(t, i).value.1 - i) as nat)))
  }

  predicate Fits(t: string, i: nat, value: Json, end: nat) {
    i < end <= |t| && (value.Dict? ==> t[i] == '{' && t[end - 1] == '}')
  }

  predicate SameText(t: string, i: nat, end: nat, t': string, i': nat) {
    i <= end <= |t| && i' + end - i <= |t'| && t[i..end] == t'[i'..i' + end - i]
  }

  /** A value found, and its span. */
  datatype Hit = Hit(value: Json, start: nat, end: nat)

  function NextBracket(t: string, i: nat): (r: nat)
    ensures i <= r && (i <= |t| ==> r <= |t|) && (r < |t| ==> Bracket(t[r]))
    ensures forall k :: i <= k < r && k < |t| ==> !Bracket(t[k])
    decreases |t| - i
  {
    if i >= |t| || Bracket(t[i]) then i else NextBracket(t, i + 1)
  }

  function Max(a: nat, b: nat): nat { if a < b then b else a }

  function Hits(lib: Library, t: string, i: nat): seq<Hit>
    decreases |t| - i
  {
    var at := NextBracket(t, i);
    if i >= |t| || at >= |t| then []
    else
      match lib.raw(t, at)
      case None => Hits(lib, t, at + 1)
      case Some((value, end)) => [Hit(value, at, end)] + Hits(lib, t, Max(end, at + 1))
  }

  function Values(hits: seq<Hit>): (r: seq<Json>)
    ensures |r| == |hits| && forall k :: 0 <= k < |hits| ==> r[k] == hits[k].value
  {
    if hits == [] then [] else [hits[0].value] + Values(hits[1..])
  }

  method SkipToBracket(t: string, start: nat) returns (index: nat)
    requires start <= |t|
    ensures index == NextBracket(t, start)
  {
    hide Bracket;
    index := start;
    while index < |t| && !Bracket(t[index])
      invariant start <= index <= |t| && NextBracket(t, start) == NextBracket(t, index)
    {
      index := index + 1;
    }
  }

  lemma ValuesMore(hit: Hit, rest: seq<Hit>)
    ensures Values([hit] + rest) == [hit.value] + Values(rest) && Values([]) == []
  {
    assert ([hit] + rest)[1..] == rest;
  }

  /** `_iter_json_values`: it always moves on, so it ends. */
  method IterJsonValues(lib: Library, t: string) returns (values: seq<Json>)
    ensures values == Values(Hits(lib, t, 0))
  {
    hide Bracket, Hits, NextBracket, Values;
    values := [];
    var index: nat := 0;
    assert [] + Values(Hits(lib, t, 0)) == Values(Hits(lib, t, 0));
    while index < |t|
      invariant values + Values(Hits(lib, t, index)) == Values(Hits(lib, t, 0))
      decreases |t| - index
    {
      HitsFirst(lib, t, index);
      var at := SkipToBracket(t, index);
      if at >= |t| {
        index := at;
        HitsFirst(lib, t, index);
        break;
      }
      var found := lib.raw(t, at);
      if found.None? {
        index := at + 1;
      } else {
        var (value, end) := found.value;
        ghost var rest := Hits(lib, t, Max(end, at + 1));
        ValuesMore(Hit(value, at, end), rest);
        Assoc(values, [value], Values(rest));
        values := values + [value];
        index := Max(end, at + 1);
      }
    }
    HitsFirst(lib, t, index);
    ValuesMore(Hit(Null, 0, 0), []);
    assert values + [] == values;
  }

  ghost predicate IsHit(lib: Library, t: string, i: nat, hit: Hit) {
    && i <= hit.start < hit.end <= |t| && Bracket(t[hit.start])
    && lib.raw(t, hit.start) == Some((hit.value, hit.end))
  }

  /** Spans are in order and apart, and each is what the library says is there. */
  lemma {:induction false} HitsAreApart(lib: Library, t: string, i: nat)
    requires Lawful(lib)
    ensures forall k :: 0 <= k < |Hits(lib, t, i)| ==> IsHit(lib, t, i, Hits(lib, t, i)[k])
    ensures forall k, m :: 0 <= k < m < |Hits(lib, t, i)| ==> Hits(lib, t, i)[k].end <= Hits(lib, t, i)[m].start
    decreases |t| - i
  {
    hide Hits, Bracket;
    HitsFirst(lib, t, i);
    var at := NextBracket(t, i);
    if i < |t| && at < |t| {
      var found := lib.raw(t, at);
      if found.None? {
        hide Lawful;
        HitsAreApart(lib, t, at + 1);
      } else {
        LawfulFits(lib, t, at);
        hide Lawful;
        var end := found.value.1;
        HitsAreApart(lib, t, end);
        var rest, hit := Hits(lib, t, end), Hit(found.value.0, at, end);
        assert IsHit(lib, t, i, hit);
        HitsMore(lib, t, i, hit, rest);
      }
    }
  }

  lemma HitsMore(lib: Library, t: string, i: nat, hit: Hit, rest: seq<Hit>)
    requires IsHit(lib, t, i, hit)
    requires forall k :: 0 <= k < |rest| ==> IsHit(lib, t, hit.end, rest[k])
    requires forall k, m :: 0 <= k < m < |rest| ==> rest[k].end <= rest[m].start
    ensures var hits := [hit] + rest;
      && (forall k :: 0 <= k < |hits| ==> IsHit(lib, t, i, hits[k]))
      && (forall k, m :: 0 <= k < m < |hits| ==> hits[k].end <= hits[m].start)
  {
    hide Bracket;
    var hits := [hit] + rest;
    forall k, m | 0 <= k < m < |hits| ensures hits[k].end <= hits[m].start {
      assert IsHit(lib, t, hit.end, rest[m - 1]);
    }
  }

  lemma HitsFirst(lib: Library, t: string, i: nat)
    ensures var at := NextBracket(t, i);
      Hits(lib, t, i) ==
        if i >= |t| || at >= |t| then []
        else if lib.raw(t, at).None? then Hits(lib, t, at + 1)
        else [Hit(lib.raw(t, at).value.0, at, lib.raw(t, at).value.1)] + Hits(lib, t, Max(lib.raw(t, at).value.1, at + 1))
  {
  }

  lemma LawfulFits(lib: Library, t: string, i: nat)
    requires Lawful(lib) && lib.raw(t, i).Some?
    ensures Fits(t, i, lib.raw(t, i).value.0, lib.raw(t, i).value.1)
  {
  }

  ghost predicate Covered(hits: seq<Hit>, p: nat) {
    exists hit :: hit in hits && hit.start <= p < hit.end
  }

  /** Nothing is missed: a value at a bracket is found, or lies inside one that is. */
  lemma {:induction false} HitsAreAll(lib: Library, t: string, i: nat, p: nat)
    requires Lawful(lib) && i <= p < |t| && (t[p] == '{' || t[p] == '[') && lib.raw(t, p).Some?
    ensures Covered(Hits(lib, t, i), p)
    decreases |t| - i
  {
    hide Hits, Covered;
    HitsFirst(lib, t, i);
    var at := NextBracket(t, i);
    var found := lib.raw(t, at);
    if found.None? {
      hide Lawful;
      HitsAreAll(lib, t, at + 1, p);
    } else {
      LawfulFits(lib, t, at);
      hide Lawful;
      var end := found.value.1;
      if p >= end { HitsAreAll(lib, t, end, p); }
      CoveredMore(Hit(found.value.0, at, end), Hits(lib, t, end), p);
    }
  }

  lemma CoveredMore(hit: Hit, rest: seq<Hit>, p: nat)
    ensures hit.start <= p < hit.end || Covered(rest, p) ==> Covered([hit] + rest, p)
  {
    assert forall h :: h in [hit] + rest <==> h == hit || h in rest;
  }

  // ------------------------------------------------------------ fenced blocks

  /** "json" in any case; the long s counts as an s when case is ignored. */
  predicate IsJsonWord(s: string) {
    && |s| == 4 && (s[0] == 'j' || s[0] == 'J') && (s[1] == 's' || s[1] == 'S' || s[1] == '\U{00017F}')
    && (s[2] == 'o' || s[2] == 'O') && (s[3] == 'n' || s[3] == 'N')
  }

  const FENCE := "```"

  /** A fenced block at the start of `t`: its contents and what follows it. */
  function Fenced(t: string): (r: Option<(string, string)>)
    ensures r.Some? ==> |r.value.1| < |t|
  {
    if !(FENCE <= t) then None
    else
      var u := t[3..];
      var v := if |u| >= 4 && IsJsonWord(u[..4]) then u[4..] else u;
      match BehindBlank(v)
      case None => None
      case Some(rest) =>
        var k := Find(rest, FENCE);
        if k == -1 then None else Some((rest[..k], rest[k + 3..]))
  }

  /** "json", each letter large or small, or left out. */
  predicate Tagged(word: string) {
    word == "" || (|word| == 4 && word[0] in {'j', 'J'} && word[1] in {'s', 'S', '\U{00017F}'} && word[2] in {'o', 'O'} && word[3] in {'n', 'N'})
  }

  lemma {:induction false} BlankPast(blank: string, rest: string)
    requires (forall c :: c in blank ==> IsSpace(c)) && BehindBlank(rest).None?
    ensures BehindBlank(blank + ("\n" + rest)) == Some(rest)
  {
    var t := blank + ("\n" + rest);
    if blank == "" {
      assert t[1..] == rest;
    } else {
      assert t[1..] == blank[1..] + ("\n" + rest);
      BlankPast(blank[1..], rest);
    }
  }

  /** A block opens with a fence, the word if any, and white space to the end of a
      line, and goes to the next fence. */
  lemma BlockFound(word: string, blank: string, inside: string, rest: string)
    requires Tagged(word) && (forall c :: c in blank ==> IsSpace(c)) && BehindBlank(inside + FENCE + rest).None?
    requires forall i :: 0 <= i < |inside| ==> !At(inside + FENCE + rest, FENCE, i)
    ensures Fenced(FENCE + (word + (blank + ("\n" + (inside + FENCE + rest))))) == Some((inside, rest))
  {
    hide IsSpace, BehindBlank, Find;
    var body := inside + FENCE + rest;
    var v := blank + ("\n" + body);
    var u := word + v;
    var t := FENCE + u;
    assert t[3..] == u;
    BlankPast(blank, body);
    if word == "" { NoWordInFront(blank, body); assert u == v; } else { assert u[..4] == word && u[4..] == v; }
    assert body[|inside|..|inside| + 3] == FENCE;
    FindIs(body, FENCE, |inside|);
    assert body[..|inside|] == inside && body[|inside| + 3..] == rest;
  }

  lemma NoWordInFront(blank: string, body: string)
    requires forall c :: c in blank ==> IsSpace(c)
    ensures var v := blank + ("\n" + body); |v| >= 4 ==> !IsJsonWord(v[..4])
  {
    var v := blank + ("\n" + body);
    assert v[0] == if blank == "" then '\n' else blank[0];
    assert blank != "" ==> blank[0] in blank;
    assert |v| >= 4 ==> v[..4][0] == v[0];
  }

  function Fences(t: string): seq<string>
    decreases |t|
  {
    if t == "" then []
    else
      match Fenced(t)
      case Some((inside, rest)) => [inside] + Fences(rest)
      case None => Fences(t[1..])
  }

  /** No fence begins in text that holds none and does not end in a back quote. */
  lemma {:induction false} FencesBehind(u: string, v: string)
    requires !Contains(u, FENCE) && (u == "" || u[|u| - 1] != '`')
    ensures Fences(u + v) == Fences(v)
  {
    if u == "" {
      assert u + v == v;
    } else {
      var t := u + v;
      assert t[0] == u[0] && t[1..] == u[1..] + v;
      assert !At(u, FENCE, 0);
      if |u| >= 3 {
        assert t[0..3] == u[0..3];
      } else {
        assert t[|u| - 1] == u[|u| - 1];
      }
      assert !(FENCE <= t);
      forall i | 0 <= i <= |u[1..]| ensures !At(u[1..], FENCE, i) {
        assert !At(u, FENCE, i + 1);
        assert i + 3 <= |u[1..]| ==> u[1..][i..i + 3] == u[i + 1..i + 4];
      }
      FencesBehind(u[1..], v);
    }
  }

  function Trimmings(blocks: seq<string>): seq<string> {
    if blocks == [] then []
    else
      var s := Strip(blocks[0], IsSpace);
      (if s == "" then [] else [s]) + Trimmings(blocks[1..])
  }

  function CandidateTexts(t: string): seq<string> { [t] + Trimmings(Fences(t)) }

  // --------------------------------------------------------------- extraction

  /** White space between JSON tokens. */
  function SkipJsonSpace(t: string, i: nat): (r: nat)
    ensures i <= r && (i <= |t| ==> r <= |t|) && (r < |t| ==> !JsonSpace(t[r]))
    ensures forall k :: i <= k < r && k < |t| ==> JsonSpace(t[k])
    decreases |t| - i
  {
    if i < |t| && JsonSpace(t[i]) then SkipJsonSpace(t, i + 1) else i
  }

  predicate JsonSpace(c: char) { c == ' ' || c == '\t' || c == '\n' || c == '\r' }

  /** `json.loads`: one value, and nothing but white space around it. */
  function Whole(lib: Library, t: string): Option<Json> {
    match lib.raw(t, SkipJsonSpace(t, 0))
    case None => None
    case Some((value, end)) => if SkipJsonSpace(t, end) == |t| then Some(value) else None
  }

  /** The value stands between `i` and `end`, in nothing but white space. */
  ghost predicate Alone(lib: Library, t: string, v: Json, i: nat, end: nat) {
    && i <= |t| && (forall k :: 0 <= k < i ==> t[k] in {' ', '\t', '\n', '\r'})
    && (i < |t| ==> t[i] !in {' ', '\t', '\n', '\r'})
    && lib.raw(t, i) == Some((v, end)) && end <= |t| && (forall k :: end <= k < |t| ==> t[k] in {' ', '\t', '\n', '\r'})
  }

  /** The whole text is a value exactly if that stands alone in it. */
  lemma WholeIff(lib: Library, t: string, v: Json)
    requires Lawful(lib)
    ensures Whole(lib, t) == Some(v) <==> exists i, end :: Alone(lib, t, v, i, end)
  {
    var i := SkipJsonSpace(t, 0);
    if lib.raw(t, i).Some? { LawfulFits(lib, t, i); }
    hide Lawful;
    if Whole(lib, t) == Some(v) {
      assert Alone(lib, t, v, i, lib.raw(t, i).value.1);
    }
    if j, end :| Alone(lib, t, v, j, end) {
      assert i == j by { assert i < |t| ==> !JsonSpace(t[i]); }
    }
  }

  function Coerced(values: seq<Json>): (r: seq<Governed>) {
    if values == [] then []
    else
      var before, last := Coerced(values[..|values| - 1]), values[|values| - 1];
      if Conforming(last) then
        CoerceIsIdempotent(last);
        before + [Coerce(last)]
      else before
  }

  /** Every conforming value of every text, coerced, in the order met. */
  function Candidates(lib: Library, texts: seq<string>): seq<Governed> {
    if texts == [] then []
    else Candidates(lib, texts[..|texts| - 1]) + Coerced(Values(Hits(lib, texts[|texts| - 1], 0)))
  }

  function Key(lib: Library, handoff: Governed): string { lib.dump(Coerce(handoff)) }

  function Keys(lib: Library, handoffs: seq<Governed>): set<string> {
    set h | h in handoffs :: Key(lib, h)
  }

  /** The first candidate under each key. */
  function Distinct(lib: Library, handoffs: seq<Governed>): seq<Governed> {
    if handoffs == [] then []
    else
      var before, last := Distinct(lib, handoffs[..|handoffs| - 1]), handoffs[|handoffs| - 1];
      if Key(lib, last) in Keys(lib, before) then before else before + [last]
  }

  datatype Outcome = Empty | Found(handoff: Json) | Nothing | Ambiguous

  function Extracted(lib: Library, result: string): Outcome {
    var t := Strip(result, IsSpace);
    if t == "" then Empty
    else
      var whole := Whole(lib, t);
      if whole.Some? && Conforming(whole.value) then Found(Coerce(whole.value))
      else
        var found := Distinct(lib, Candidates(lib, CandidateTexts(t)));
        if found == [] then Nothing
        else if |found| > 1 && |Keys(lib, found)| > 1 then Ambiguous
        else Found(found[|found| - 1])
  }

  method ExtractGovernedHandoff(lib: Library, result: string) returns (outcome: Outcome)
    ensures outcome == Extracted(lib, result)
  {
    hide *;
    ExtractedCases(lib, result);
    var t := Strip(result, IsSpace);
    if t == "" { return Empty; }
    var whole := Whole(lib, t);
    if whole.Some? && Conforming(whole.value) { return Found(Coerce(whole.value)); }
    var conforming: seq<Governed>, seen: set<string> := [], {};
    var texts := CandidateTexts(t);
    NoCandidates(lib);
    for i := 0 to |texts|
      invariant conforming == Distinct(lib, Candidates(lib, texts[..i])) && seen == Keys(lib, conforming)
    {
      ghost var before := Candidates(lib, texts[..i]);
      var values := IterJsonValues(lib, texts[i]);
      assert values[..0] == [] && before + [] == before;
      for j := 0 to |values|
        invariant conforming == Distinct(lib, before + Coerced(values[..j])) && seen == Keys(lib, conforming)
      {
        OneValue(lib, before, values, j);
        if !Conforming(values[j]) { continue; }
        CoerceIsIdempotent(values[j]);
        var coerced: Governed := Coerce(values[j]);
        var normalized := Key(lib, coerced);
        if normalized in seen { continue; }
        OneKey(lib, conforming, coerced);
        seen := seen + {normalized};
        conforming := conforming + [coerced];
      }
      assert values[..|values|] == values;
      NextText(lib, texts, i);
    }
    assert texts[..|texts|] == texts;
    if conforming == [] { return Nothing; }
    if |conforming| > 1 {
      var signatures := Keys(lib, conforming);
      if |signatures| > 1 { return Ambiguous; }
    }
    return Found(conforming[|conforming| - 1]);
  }

  lemma ExtractedCases(lib: Library, result: string)
    ensures var t := Strip(result, IsSpace);
      var whole := Whole(lib, t);
      var found := Distinct(lib, Candidates(lib, CandidateTexts(t)));
      Extracted(lib, result) ==
        if t == "" then Empty
        else if whole.Some? && Conforming(whole.value) then Found(Coerce(whole.value))
        else if found == [] then Nothing
        else if |found| > 1 && |Keys(lib, found)| > 1 then Ambiguous
        else Found(found[|found| - 1])
  {
    hide Strip, Whole, Conforming, Distinct, Candidates, CandidateTexts, Keys, Coerce;
  }

  lemma NoCandidates(lib: Library)
    ensures Candidates(lib, []) == [] && Distinct(lib, []) == [] && Coerced([]) == [] && Keys(lib, []) == {}
  {
  }

  lemma OneKey(lib: Library, handoffs: seq<Governed>, handoff: Governed)
    ensures Keys(lib, handoffs + [handoff]) == Keys(lib, handoffs) + {Key(lib, handoff)}
  {
    hide Key, Conforming;
    var more := handoffs + [handoff];
    assert forall h :: h in more <==> h in handoffs || h == handoff;
  }

  lemma OneValue(lib: Library, before: seq<Governed>, values: seq<Json>, j: nat)
    requires j < |values|
    ensures !Conforming(values[j]) ==> Coerced(values[..j + 1]) == Coerced(values[..j])
    ensures Conforming(values[j]) ==>
      var done := before + Coerced(values[..j]);
      && Conforming(Coerce(values[j]))
      && Distinct(lib, before + Coerced(values[..j + 1])) ==
        if Key(lib, Coerce(values[j])) in Keys(lib, Distinct(lib, done)) then Distinct(lib, done)
        else Distinct(lib, done) + [Coerce(values[j])]
  {
    hide Key, Keys, Conforming, Coerce;
    assert values[..j + 1][..j] == values[..j];
    if Conforming(values[j]) {
      CoerceIsIdempotent(values[j]);
      var done := before + Coerced(values[..j]);
      var more := done + [Coerce(values[j])];
      assert before + Coerced(values[..j + 1]) == more;
      assert more[..|done|] == done;
    }
  }

  lemma NextText(lib: Library, texts: seq<string>, i: nat)
    requires i < |texts|
    ensures Candidates(lib, texts[..i + 1]) == Candidates(lib, texts[..i]) + Coerced(Values(Hits(lib, texts[i], 0)))
  {
    assert texts[..i + 1][..i] == texts[..i];
  }

  // ----------------------------------------------------------------- results

  lemma {:induction false} DistinctKeys(lib: Library, all: seq<Governed>)
    ensures Keys(lib, Distinct(lib, all)) == Keys(lib, all)
    ensures |Distinct(lib, all)| == |Keys(lib, all)|
    ensures all != [] ==> Distinct(lib, all) != [] && Distinct(lib, all)[0] == all[0]
    ensures forall h :: h in Distinct(lib, all) ==> h in all
  {
    hide Key, Conforming, Keys;
    if all == [] {
      NoCandidates(lib);
    } else {
      var n := |all| - 1;
      DistinctKeys(lib, all[..n]);
      assert all == all[..n] + [all[n]];
      OneKey(lib, all[..n], all[n]);
      OneKey(lib, Distinct(lib, all[..n]), all[n]);
      if n == 0 { NoCandidates(lib); }
    }
  }

  /** The inner test for differing signatures is always true where it is reached:
      several candidates are kept only under different keys. */
  lemma SignaturesAlwaysDiffer(lib: Library, texts: seq<string>)
    ensures var found := Distinct(lib, Candidates(lib, texts));
      |Keys(lib, found)| == |found|
  {
    hide Candidates, Distinct, Keys;
    DistinctKeys(lib, Candidates(lib, texts));
  }

  ghost predicate Agree(lib: Library, handoffs: seq<Governed>) {
    forall i, j :: 0 <= i < |handoffs| && 0 <= j < |handoffs| ==> Key(lib, handoffs[i]) == Key(lib, handoffs[j])
  }

  lemma AgreeIffOneKey(lib: Library, handoffs: seq<Governed>)
    requires handoffs != []
    ensures Agree(lib, handoffs) <==> |Keys(lib, handoffs)| == 1
  {
    hide Key, Conforming;
    var keys, k := Keys(lib, handoffs), Key(lib, handoffs[0]);
    assert handoffs[0] in handoffs && k in keys;
    if Agree(lib, handoffs) {
      forall x | x in keys ensures x == k {
        var h :| h in handoffs && Key(lib, h) == x;
        var i :| 0 <= i < |handoffs| && handoffs[i] == h;
      }
      assert keys == {k};
    } else {
      var i, j :| 0 <= i < |handoffs| && 0 <= j < |handoffs| && Key(lib, handoffs[i]) != Key(lib, handoffs[j]);
      TwoKeys(keys, Key(lib, handoffs[i]), Key(lib, handoffs[j]));
    }
  }

  lemma TwoKeys(keys: set<string>, a: string, b: string)
    requires a in keys && b in keys && a != b
    ensures |keys| != 1
  {
    assert |keys - {b}| == |keys| - 1 && a in keys - {b};
    assert keys - {b} != {};
  }

  /** Unless the whole text is a handoff, one is returned exactly when there is a
      candidate and all of them agree; it is then the first of them. */
  lemma FoundIffCandidatesAgree(lib: Library, result: string)
    requires var t := Strip(result, IsSpace);
      t != "" && !(Whole(lib, t).Some? && Conforming(Whole(lib, t).value))
    ensures var all := Candidates(lib, CandidateTexts(Strip(result, IsSpace)));
      && (Extracted(lib, result).Found? <==> all != [] && Agree(lib, all))
      && (Extracted(lib, result).Nothing? <==> all == [])
      && (Extracted(lib, result).Found? ==> Extracted(lib, result).handoff == all[0])
  {
    hide Strip, Whole, Conforming, Distinct, Candidates, CandidateTexts, Keys, Agree, Extracted;
    ExtractedCases(lib, result);
    var all := Candidates(lib, CandidateTexts(Strip(result, IsSpace)));
    DistinctKeys(lib, all);
    if all == [] {
      NoCandidates(lib);
    } else {
      AgreeIffOneKey(lib, all);
    }
  }

  /** The value is in the text: all of it, or what is scanned from a candidate text. */
  ghost predicate Decoded(lib: Library, t: string, v: Json) {
    Whole(lib, t) == Some(v) || exists x, i :: x in CandidateTexts(t) && 0 <= i < |Hits(lib, x, 0)| && Hits(lib, x, 0)[i].value == v
  }

  lemma {:induction false} CoercedFrom(values: seq<Json>, h: Governed) returns (i: nat)
    requires h in Coerced(values)
    ensures i < |values| && Conforming(values[i]) && h == Coerce(values[i])
  {
    hide Conforming, Coerce;
    var n := |values| - 1;
    if h in Coerced(values[..n]) {
      i := CoercedFrom(values[..n], h);
    } else {
      i := n;
    }
  }

  /** A returned handoff holds the fields of some value in the text. */
  lemma FoundHolds(lib: Library, result: string) returns (v: Json)
    requires Extracted(lib, result).Found?
    ensures Decoded(lib, Strip(result, IsSpace), v) && Holds(Extracted(lib, result).handoff, v)
  {
    hide Strip, Whole, Conforming, Distinct, Candidates, CandidateTexts, Keys, Coerce, Hits, Coerced, Holds, Values;
    ExtractedCases(lib, result);
    var t := Strip(result, IsSpace);
    if Whole(lib, t).Some? && Conforming(Whole(lib, t).value) {
      v := Whole(lib, t).value;
      CoerceHolds(v);
    } else {
      FoundIffCandidatesAgree(lib, result);
      var all := Candidates(lib, CandidateTexts(t));
      var k := CandidateFrom(lib, CandidateTexts(t), all[0]);
      var x := CandidateTexts(t)[k];
      var i := CoercedFrom(Values(Hits(lib, x, 0)), all[0]);
      ValuesAt(Hits(lib, x, 0));
      v := Hits(lib, x, 0)[i].value;
      CoerceHolds(v);
    }
  }

  lemma ValuesAt(hits: seq<Hit>)
    ensures |Values(hits)| == |hits| && forall k :: 0 <= k < |hits| ==> Values(hits)[k] == hits[k].value
  {
  }

  /** When the text a value is written as tells values apart, agreeing is being equal. */
  lemma AgreeMeansEqual(lib: Library, all: seq<Governed>)
    requires forall a, b :: lib.dump(a) == lib.dump(b) ==> a == b
    requires forall h :: h in all ==> Coerce(h) == h
    ensures Agree(lib, all) <==> forall i, j :: 0 <= i < |all| && 0 <= j < |all| ==> all[i] == all[j]
  {
    hide Coerce, Conforming;
    if Agree(lib, all) {
      forall i, j | 0 <= i < |all| && 0 <= j < |all| ensures all[i] == all[j] {
        assert Key(lib, all[i]) == Key(lib, all[j]);
        assert all[i] in all && all[j] in all;
      }
    }
  }

  lemma {:induction false} CoercedAreCoerced(values: seq<Json>)
    ensures forall h :: h in Coerced(values) ==> Coerce(h) == h
  {
    hide Coerce, Conforming;
    if values != [] {
      var n := |values| - 1;
      CoercedAreCoerced(values[..n]);
      if Conforming(values[n]) { CoerceIsIdempotent(values[n]); }
    }
  }

  lemma {:induction false} CandidatesAreCoerced(lib: Library, texts: seq<string>)
    ensures forall h :: h in Candidates(lib, texts) ==> Coerce(h) == h
  {
    hide Coerce, Conforming, Coerced, Hits, Values;
    if texts != [] {
      var n := |texts| - 1;
      CandidatesAreCoerced(lib, texts[..n]);
      CoercedAreCoerced(Values(Hits(lib, texts[n], 0)));
    }
  }

  /** So when the written text tells values apart, a handoff is returned exactly
      when there is a candidate and all of them are equal. */
  lemma FoundIffCandidatesEqual(lib: Library, result: string)
    requires var t := Strip(result, IsSpace);
      t != "" && !(Whole(lib, t).Some? && Conforming(Whole(lib, t).value))
    requires forall a, b :: lib.dump(a) == lib.dump(b) ==> a == b
    ensures var all := Candidates(lib, CandidateTexts(Strip(result, IsSpace)));
      Extracted(lib, result).Found? <==> all != [] && forall i, j :: 0 <= i < |all| && 0 <= j < |all| ==> all[i] == all[j]
  {
    hide Extracted, Candidates, CandidateTexts, Coerce, Conforming, Agree;
    FoundIffCandidatesAgree(lib, result);
    CandidatesAreCoerced(lib, CandidateTexts(Strip(result, IsSpace)));
    AgreeMeansEqual(lib, Candidates(lib, CandidateTexts(Strip(result, IsSpace))));
  }

  // ---------------------------------------------------- a handoff in other text

  predicate NoBrackets(s: string) { forall c :: c in s ==> !Bracket(c) }

  /** `s` is how some object is written. */
  ghost predicate Writes(lib: Library, s: string, value: Json) {
    s != "" && value.Dict? && lib.raw(s, 0) == Some((value, |s|))
  }

  lemma NextIs(t: string, i: nat, r: nat)
    requires i <= r <= |t| && (r < |t| ==> Bracket(t[r]))
    requires forall k :: i <= k < r ==> !Bracket(t[k])
    ensures NextBracket(t, i) == r
  {
    hide Bracket;
  }

  /** The object is recognised wherever it stands. */
  lemma RawMoves(lib: Library, pre: string, s: string, post: string, value: Json)
    requires Lawful(lib) && Writes(lib, s, value)
    ensures lib.raw(pre + s + post, |pre|) == Some((value, |pre| + |s|))
    ensures s[0] == '{' && s[|s| - 1] == '}'
  {
    hide Lawful;
    var t, at := pre + s + post, |pre|;
    LawfulFits(lib, s, 0);
    assert t[at..at + |s|] == s == s[0..|s|];
    LawfulSame(lib, s, t, at);
  }

  lemma LawfulSame(lib: Library, s: string, t: string, at: nat)
    requires Lawful(lib) && lib.raw(s, 0).Some? && s != "" && Bracket(s[0])
    requires SameText(s, 0, lib.raw(s, 0).value.1, t, at)
    ensures lib.raw(t, at) == Some((lib.raw(s, 0).value.0, at + lib.raw(s, 0).value.1))
  {
    hide SameText, Bracket;
    var i: nat := 0;
    assert lib.raw(s, i).Some? && Bracket(s[i]) && SameText(s, i, lib.raw(s, i).value.1, t, at);
  }

  lemma NextAround(pre: string, s: string, post: string)
    requires s != "" && Bracket(s[0]) && NoBrackets(pre) && NoBrackets(post)
    ensures NextBracket(pre + s + post, 0) == |pre|
    ensures NextBracket(pre + s + post, |pre| + |s|) == |pre| + |s| + |post|
  {
    hide Bracket;
    var t, at, end := pre + s + post, |pre|, |pre| + |s|;
    forall k | 0 <= k < at ensures !Bracket(t[k]) {
      assert t[k] == pre[k] && pre[k] in pre;
    }
    forall k | end <= k < |t| ensures !Bracket(t[k]) {
      assert t[k] == post[k - end] && post[k - end] in post;
    }
    assert t[at] == s[0];
    NextIs(t, 0, at);
    NextIs(t, end, |t|);
  }

  /** Scanning text around it finds the object and nothing else. */
  lemma OneHit(lib: Library, pre: string, s: string, post: string, value: Json)
    requires Lawful(lib) && Writes(lib, s, value) && NoBrackets(pre) && NoBrackets(post)
    ensures Hits(lib, pre + s + post, 0) == [Hit(value, |pre|, |pre| + |s|)]
  {
    hide *;
    WritesSomething(lib, s, value);
    RawMoves(lib, pre, s, post, value);
    Braces();
    NextAround(pre, s, post);
    OnlyHit(lib, pre + s + post, value, |pre|, |pre| + |s|);
  }

  lemma OnlyHit(lib: Library, t: string, value: Json, at: nat, end: nat)
    requires at < end <= |t| && NextBracket(t, 0) == at && NextBracket(t, end) == |t|
    requires lib.raw(t, at) == Some((value, end))
    ensures Hits(lib, t, 0) == [Hit(value, at, end)]
  {
    hide Hits, NextBracket;
    HitsFirst(lib, t, 0);
    HitsFirst(lib, t, end);
  }

  /** Stripping leaves the object with what remains of its surroundings. */
  lemma StripAround(pre: string, s: string, post: string) returns (a: string, b: string)
    requires s != "" && !IsSpace(s[0]) && !IsSpace(s[|s| - 1])
    ensures Strip(pre + s + post, IsSpace) == a + s + b
    ensures (forall c :: c in a ==> c in pre) && (forall c :: c in b ==> c in post)
    ensures a != "" ==> !IsSpace(a[0])
  {
    hide IsSpace, Strip;
    var t, m, n := pre + s + post, |pre|, |pre| + |s|;
    var lo, hi := StripSlice(t, IsSpace);
    assert t[m] == s[0] && t[n - 1] == s[|s| - 1];
    assert lo <= m && n <= hi;
    a, b := t[lo..m], t[n..hi];
    assert t[lo..hi] == a + t[m..n] + b;
    assert t[m..n] == s;
    assert a == pre[lo..] && b == post[..hi - n];
    StripTrims(t, IsSpace);
    var u := Strip(t, IsSpace);
    assert a != "" ==> u[0] == a[0];
  }

  /** All of the object's text and no other bracket, or no bracket at all. */
  ghost predicate Around(x: string, s: string) {
    NoBrackets(x) || exists a, b :: x == a + s + b && NoBrackets(a) && NoBrackets(b)
  }

  /** An object in whose text no fence stands. */
  predicate Unfenced(s: string) {
    s != "" && s[0] == '{' && s[|s| - 1] == '}' && !Contains(s, FENCE)
  }

  lemma {:induction false} BlankStays(p: string, w: string)
    requires w != "" && !IsSpace(w[0]) && BehindBlank(p + w).Some?
    ensures exists n :: 0 <= n <= |p| && BehindBlank(p + w).value == p[n..] + w
  {
    hide IsSpace;
    assert "" + w == w;
    if p != "" {
      assert (p + w)[1..] == p[1..] + w;
      if BehindBlank(p[1..] + w).Some? {
        BlankStays(p[1..], w);
        var n :| 0 <= n <= |p[1..]| && BehindBlank(p[1..] + w).value == p[1..][n..] + w;
        assert p[1..][n..] == p[n + 1..];
      } else {
        assert BehindBlank(p + w).value == p[1..] + w;
      }
    }
  }

  /** A fence stands in front of an unfenced object or behind it. */
  lemma FenceApart(a: string, s: string, b: string, k: int)
    requires Unfenced(s) && At(a + s + b, FENCE, k)
    ensures k + 3 <= |a| || |a| + |s| <= k
  {
    var t := a + s + b;
    if k + 3 > |a| && k < |a| + |s| {
      assert t[k..k + 3] == FENCE;
      forall m | k <= m < k + 3 ensures t[m] == '`' { assert t[m] == t[k..k + 3][m - k]; }
      assert t[|a|] == '{' && t[|a| + |s| - 1] == '}';
      var i := k - |a|;
      assert 0 <= i && i + 3 <= |s|;
      assert s[i..i + 3] == t[k..k + 3];
      assert At(s, FENCE, i);
      assert false;
    }
  }

  lemma PartsPlain(s: string, lo: nat, hi: nat)
    requires lo <= hi <= |s| && NoBrackets(s)
    ensures NoBrackets(s[lo..hi])
  {
    hide Bracket;
  }

  lemma RestPlain(s: string, lo: nat)
    requires lo <= |s| && NoBrackets(s)
    ensures NoBrackets(s[lo..])
  {
    PartsPlain(s, lo, |s|);
    assert s[lo..] == s[lo..|s|];
  }

  lemma {:induction false} FencesPlain(t: string, g: string)
    requires NoBrackets(t) && g in Fences(t)
    ensures NoBrackets(g)
    decreases |t|
  {
    hide Bracket, BehindBlank, NoBrackets;
    if Fenced(t).Some? {
      var n, m := FencedSlice(t);
      PartsPlain(t, n, m);
      RestPlain(t, m + 3);
      if g != t[n..m] { FencesPlain(t[m + 3..], g); }
    } else {
      RestPlain(t, 1);
      FencesPlain(t[1..], g);
    }
  }

  lemma {:induction false} BlankSlice(t: string)
    requires BehindBlank(t).Some?
    ensures exists n :: 0 <= n <= |t| && BehindBlank(t).value == t[n..]
  {
    hide IsSpace;
    if BehindBlank(t[1..]).Some? {
      BlankSlice(t[1..]);
      var n :| 0 <= n <= |t[1..]| && BehindBlank(t[1..]).value == t[1..][n..];
      assert t[1..][n..] == t[n + 1..];
    } else {
      assert BehindBlank(t).value == t[1..];
    }
  }

  /** What follows the opening fence, with or without the word. */
  lemma FencedParts(t: string) returns (skip: nat)
    requires Fenced(t).Some?
    ensures FENCE <= t && skip <= |t| - 3 && (skip == 0 || (skip == 4 && IsJsonWord(t[3..][..4])))
    ensures BehindBlank(t[3 + skip..]).Some?
    ensures var rest := BehindBlank(t[3 + skip..]).value; var k := Find(rest, FENCE);
      k >= 0 && k + 3 <= |rest| && At(rest, FENCE, k) && Fenced(t).value == (rest[..k], rest[k + 3..])
  {
    hide BehindBlank, IsJsonWord;
    var u := t[3..];
    skip := if |u| >= 4 && IsJsonWord(u[..4]) then 4 else 0;
    assert u[skip..] == t[3 + skip..];
    var rest := BehindBlank(t[3 + skip..]).value;
    FindHits(rest);
  }

  lemma FindHits(s: string)
    ensures Find(s, FENCE) == -1 || At(s, FENCE, Find(s, FENCE))
  {
  }

  /** What a fenced block holds is a slice, and the text goes on behind its end. */
  lemma FencedSlice(t: string) returns (n: nat, m: nat)
    requires Fenced(t).Some?
    ensures n <= m <= |t| - 3 && Fenced(t).value == (t[n..m], t[m + 3..])
  {
    hide BehindBlank, IsJsonWord, Fenced, Find;
    hide At;
    var skip := FencedParts(t);
    var v := t[3 + skip..];
    BlankSlice(v);
    var i :| 0 <= i <= |v| && BehindBlank(v).value == v[i..];
    n := 3 + skip + i;
    Behind(t, 3 + skip, i);
    var k := Find(t[n..], FENCE);
    m := n + k;
    Pieces(t, n, k);
  }

  lemma Behind(t: string, a: nat, i: nat)
    requires a + i <= |t|
    ensures t[a..][i..] == t[a + i..]
  {
  }

  lemma Pieces(t: string, n: nat, k: nat)
    requires n + k + 3 <= |t|
    ensures t[n..][..k] == t[n..n + k] && t[n..][k + 3..] == t[n + k + 3..]
  {
  }

  /** The block that opens in front of an unfenced object: where its contents
      begin, the object not being touched. */
  lemma OpensBefore(a: string, s: string, b: string) returns (n: nat, k: nat)
    requires Unfenced(s) && Fenced(a + s + b).Some?
    ensures 3 <= n <= |a|
    ensures var rest := a[n..] + s + b;
      k + 3 <= |rest| && At(rest, FENCE, k) && Fenced(a + s + b).value == (rest[..k], rest[k + 3..])
  {
    hide BehindBlank, IsSpace, Fenced, Find;
    var t := a + s + b;
    var skip := FencedParts(t);
    assert t[0..3] == FENCE;
    assert At(t, FENCE, 0);
    FenceApart(a, s, b, 0);
    assert t[|a|] == '{';
    assert skip == 4 ==> forall k :: 0 <= k < 4 ==> t[3 + k] == t[3..][..4][k] != '{';
    var p, w := a[3 + skip..], s + b;
    assert t[3 + skip..] == p + w;
    assert w[0] == '{' && !IsSpace('{') by { Braces(); }
    BlankStays(p, w);
    var i :| 0 <= i <= |p| && BehindBlank(p + w).value == p[i..] + w;
    n := 3 + skip + i;
    assert p[i..] == a[n..];
    assert p[i..] + w == a[n..] + s + b;
    k := Find(a[n..] + s + b, FENCE);
  }

  lemma FencesFirst(t: string)
    ensures Fences(t) ==
      if t == "" then []
      else if Fenced(t).Some? then [Fenced(t).value.0] + Fences(Fenced(t).value.1)
      else Fences(t[1..])
  {
    hide Fenced;
  }

  /** Where the block that opens in front of the object ends: in front of it too,
      or behind it. */
  lemma ClosesApart(c: string, s: string, b: string, k: nat) returns (before: bool, m: nat)
    requires Unfenced(s) && k + 3 <= |c + s + b| && At(c + s + b, FENCE, k)
    ensures var rest := c + s + b;
      if before then m + 3 <= |c| && rest[..k] == c[..m] && rest[k + 3..] == c[m + 3..] + s + b
      else m + 3 <= |b| && rest[..k] == c + s + b[..m] && rest[k + 3..] == b[m + 3..]
  {
    hide At, Unfenced;
    FenceApart(c, s, b, k);
    before := k + 3 <= |c|;
    m := if before then k else k - |c| - |s|;
  }

  /** Every fenced block holds the whole object or nothing of it. */
  lemma {:induction false} FencesAround(a: string, s: string, b: string, g: string)
    requires Unfenced(s) && NoBrackets(a) && NoBrackets(b) && g in Fences(a + s + b)
    ensures Around(g, s)
    decreases |a|
  {
    hide Fenced, NoBrackets, Fences, Unfenced, At;
    var t := a + s + b;
    FencesFirst(t);
    if Fenced(t).Some? {
      var n, k := OpensBefore(a, s, b);
      var c := a[n..];
      RestPlain(a, n);
      var before, m := ClosesApart(c, s, b, k);
      if before {
        PartsPlain(c, 0, m);
        RestPlain(c, m + 3);
        assert c[0..m] == c[..m];
        if g != c[..m] { FencesAround(c[m + 3..], s, b, g); }
      } else {
        PartsPlain(b, 0, m);
        RestPlain(b, m + 3);
        assert b[0..m] == b[..m];
        if g != c + s + b[..m] { FencesPlain(b[m + 3..], g); }
      }
    } else if a != "" {
      assert t[1..] == a[1..] + s + b;
      RestPlain(a, 1);
      FencesAround(a[1..], s, b, g);
    } else {
      assert t == s + b;
      UnfencedEnds(s);
      FencesBehind(s, b);
      FencesPlain(b, g);
    }
  }

  lemma UnfencedEnds(s: string)
    requires Unfenced(s)
    ensures !Contains(s, FENCE) && s[|s| - 1] != '`'
  {
  }

  /** Stripping a text around an object leaves one. */
  lemma StripKeepsAround(x: string, s: string)
    requires Unfenced(s) && Around(x, s)
    ensures Around(Strip(x, IsSpace), s)
  {
    hide IsSpace, Strip, Bracket, NoBrackets;
    Braces();
    if NoBrackets(x) {
      var lo, hi := StripSlice(x, IsSpace);
      PartsPlain(x, lo, hi);
    } else {
      var a, b :| x == a + s + b && NoBrackets(a) && NoBrackets(b);
      var c, d := StripAround(a, s, b);
      FewerBrackets(c, a);
      FewerBrackets(d, b);
    }
  }

  lemma {:induction false} TrimmingsAround(blocks: seq<string>, s: string, x: string)
    requires Unfenced(s) && (forall g :: g in blocks ==> Around(g, s)) && x in Trimmings(blocks)
    ensures Around(x, s)
  {
    hide Strip, IsSpace, Around, Unfenced;
    if x == Strip(blocks[0], IsSpace) {
      StripKeepsAround(blocks[0], s);
    } else {
      TrimmingsAround(blocks[1..], s, x);
    }
  }

  lemma NoHits(lib: Library, x: string)
    requires NoBrackets(x)
    ensures Hits(lib, x, 0) == []
  {
    hide Hits, Bracket;
    HitsFirst(lib, x, 0);
    assert forall k :: 0 <= k < |x| ==> x[k] in x;
  }

  /** Each such text yields the object at most. */
  lemma AroundYields(lib: Library, x: string, s: string, value: Json)
    requires Lawful(lib) && Writes(lib, s, value) && Around(x, s)
    ensures Values(Hits(lib, x, 0)) == [] || Values(Hits(lib, x, 0)) == [value]
  {
    hide Lawful, Writes, Hits, NoBrackets;
    if NoBrackets(x) {
      NoHits(lib, x);
    } else {
      var a, b :| x == a + s + b && NoBrackets(a) && NoBrackets(b);
      OneHit(lib, a, s, b, value);
      assert Values([Hit(value, |a|, |a| + |s|)]) == [value];
    }
  }

  lemma JustOne(values: seq<Json>, value: Json)
    requires Conforming(value) && (values == [] || values == [value])
    ensures forall h :: h in Coerced(values) ==> h == Coerce(value)
    ensures values == [value] ==> Coerced(values) == [Coerce(value)]
  {
    hide Conforming, Coerce;
    CoerceIsIdempotent(value);
    if values == [value] {
      assert values[..0] == [];
      assert Coerced(values) == [] + [Coerce(value)];
    }
  }

  lemma {:induction false} CandidatesAround(lib: Library, texts: seq<string>, s: string, value: Json, h: Governed)
    requires Lawful(lib) && Writes(lib, s, value) && Conforming(value)
    requires (forall x :: x in texts ==> Around(x, s)) && h in Candidates(lib, texts)
    ensures h == Coerce(value)
  {
    hide Lawful, Writes, Around, Hits, Conforming, Coerce, Coerced;
    var n := |texts| - 1;
    AroundYields(lib, texts[n], s, value);
    JustOne(Values(Hits(lib, texts[n], 0)), value);
    if h in Candidates(lib, texts[..n]) { CandidatesAround(lib, texts[..n], s, value, h); }
  }

  /** A candidate of one text is a candidate. */
  lemma {:induction false} CandidateOf(lib: Library, texts: seq<string>, i: nat, h: Governed)
    requires i < |texts| && h in Coerced(Values(Hits(lib, texts[i], 0)))
    ensures h in Candidates(lib, texts)
  {
    hide Hits, Conforming, Coerced;
    var n := |texts| - 1;
    if i < n { CandidateOf(lib, texts[..n], i, h); }
  }

  lemma TextsAround(a: string, s: string, b: string, x: string)
    requires Unfenced(s) && NoBrackets(a) && NoBrackets(b) && x in CandidateTexts(a + s + b)
    ensures Around(x, s)
  {
    hide Fences, Trimmings, Unfenced, NoBrackets;
    var t := a + s + b;
    if x != t {
      forall g | g in Fences(t) ensures Around(g, s) { FencesAround(a, s, b, g); }
      hide Around;
      TrimmingsAround(Fences(t), s, x);
    }
  }

  /** All candidates being one handoff, that is what is extracted. */
  lemma AllTheSame(lib: Library, result: string, handoff: Governed)
    requires var t := Strip(result, IsSpace);
      && t != "" && handoff in Candidates(lib, CandidateTexts(t))
      && (forall h :: h in Candidates(lib, CandidateTexts(t)) ==> h == handoff)
      && (Whole(lib, t).Some? && Conforming(Whole(lib, t).value) ==> Coerce(Whole(lib, t).value) == handoff)
    ensures Extracted(lib, result) == Found(handoff)
  {
    hide Strip, Whole, Conforming, Candidates, CandidateTexts, Coerce, Distinct, Extracted;
    ExtractedCases(lib, result);
    var t := Strip(result, IsSpace);
    if !(Whole(lib, t).Some? && Conforming(Whole(lib, t).value)) {
      var all := Candidates(lib, CandidateTexts(t));
      assert all[0] in all;
      assert Agree(lib, all) by {
        forall i, j | 0 <= i < |all| && 0 <= j < |all| ensures Key(lib, all[i]) == Key(lib, all[j]) {
          assert all[i] in all && all[j] in all;
        }
      }
      FoundIffCandidatesAgree(lib, result);
    }
  }

  /** A handoff written into text that has no brackets of its own is extracted in
      its coerced form, fenced or not, as long as no fence stands within it. */
  lemma EmbeddedHandoff(lib: Library, pre: string, s: string, post: string, value: Json)
    requires Lawful(lib) && Writes(lib, s, value) && Conforming(value)
    requires NoBrackets(pre) && NoBrackets(post) && !Contains(s, FENCE)
    ensures Extracted(lib, pre + s + post) == Found(Coerce(value))
  {
    hide *;
    var t := ObjectInText(lib, pre, s, post, value);
    WritesSomething(lib, s, value);
    IsUnfenced(s);
    var a, b :| t == a + s + b && NoBrackets(a) && NoBrackets(b);
    forall x | x in CandidateTexts(t) ensures Around(x, s) { TextsAround(a, s, b, x); }
    forall h | h in Candidates(lib, CandidateTexts(t)) ensures h == Coerce(value) {
      CandidatesAround(lib, CandidateTexts(t), s, value, h);
    }
    OneOfText(t);
    CandidateOf(lib, CandidateTexts(t), 0, Coerce(value));
    AllTheSame(lib, pre + s + post, Coerce(value));
  }

  /** The text itself comes first. */
  lemma OneOfText(t: string)
    ensures CandidateTexts(t) != [] && CandidateTexts(t)[0] == t
  {
  }

  lemma {:induction false} CandidateFrom(lib: Library, texts: seq<string>, h: Governed) returns (i: nat)
    requires h in Candidates(lib, texts)
    ensures i < |texts| && h in Coerced(Values(Hits(lib, texts[i], 0)))
  {
    hide Hits, Conforming, Coerced;
    var n := |texts| - 1;
    if h in Candidates(lib, texts[..n]) {
      i := CandidateFrom(lib, texts[..n], h);
    } else {
      i := n;
    }
  }

  /** What a fenced block of `t` adds to the candidates. */
  ghost predicate InBlock(lib: Library, t: string, h: Governed) {
    exists x :: x in Trimmings(Fences(t)) && h in Coerced(Values(Hits(lib, x, 0)))
  }

  /** Whatever the object's text holds: it is extracted exactly when it is the
      whole text, or every handoff in a fenced block has its written form. */
  lemma EmbeddedIff(lib: Library, pre: string, s: string, post: string, value: Json)
    requires Lawful(lib) && Writes(lib, s, value) && Conforming(value)
    requires NoBrackets(pre) && NoBrackets(post)
    ensures var t := Strip(pre + s + post, IsSpace);
      Extracted(lib, pre + s + post) == Found(Coerce(value)) <==>
        || (Whole(lib, t).Some? && Conforming(Whole(lib, t).value))
        || forall h: Governed :: InBlock(lib, t, h) ==> Key(lib, h) == lib.dump(Coerce(value))
  {
    hide *;
    KeyOfCoerced(lib, value);
    var t := ObjectInText(lib, pre, s, post, value);
    ExtractedCases(lib, pre + s + post);
    if !(Whole(lib, t).Some? && Conforming(Whole(lib, t).value)) {
      var all := Candidates(lib, CandidateTexts(t));
      FoundIffCandidatesAgree(lib, pre + s + post);
      AgreeIffBlocksDo(lib, t, Coerce(value));
    }
  }

  lemma KeyOfCoerced(lib: Library, value: Json)
    requires Conforming(value)
    ensures Conforming(Coerce(value)) && Key(lib, Coerce(value)) == lib.dump(Coerce(value))
  {
    hide Conforming, Coerce;
    CoerceIsIdempotent(value);
  }

  lemma AgreeIffBlocksDo(lib: Library, t: string, first: Governed)
    requires Coerced(Values(Hits(lib, t, 0))) == [first]
    ensures var all := Candidates(lib, CandidateTexts(t));
      && all != [] && all[0] == first
      && (Agree(lib, all) <==> forall h :: InBlock(lib, t, h) ==> Key(lib, h) == Key(lib, first))
  {
    hide Hits, Conforming, Coerced, Candidates, Key, Fences, Trimmings;
    var texts, all := CandidateTexts(t), Candidates(lib, CandidateTexts(t));
    FirstCandidates(lib, texts);
    assert [first][0] == all[0];
    if Agree(lib, all) {
      forall h | InBlock(lib, t, h) ensures Key(lib, h) == Key(lib, first) {
        var x :| x in Trimmings(Fences(t)) && h in Coerced(Values(Hits(lib, x, 0)));
        assert x in texts;
        var i :| 0 <= i < |texts| && texts[i] == x;
        CandidateOf(lib, texts, i, h);
        var j :| 0 <= j < |all| && all[j] == h;
      }
    }
    if forall h :: InBlock(lib, t, h) ==> Key(lib, h) == Key(lib, first) {
      forall j | 0 <= j < |all| ensures Key(lib, all[j]) == Key(lib, first) {
        var i := CandidateFrom(lib, texts, all[j]);
        if i > 0 {
          assert texts[i] in Trimmings(Fences(t));
          assert InBlock(lib, t, all[j]);
        }
      }
    }
  }

  /** The candidates of the first text are the first candidates. */
  lemma {:induction false} FirstCandidates(lib: Library, texts: seq<string>)
    requires texts != []
    ensures Coerced(Values(Hits(lib, texts[0], 0))) <= Candidates(lib, texts)
  {
    hide Hits, Conforming, Coerced;
    var n := |texts| - 1;
    if n > 0 {
      FirstCandidates(lib, texts[..n]);
    } else {
      assert Candidates(lib, texts[..0]) == [];
    }
  }

  /** Of the stripped text as a whole: the object is its one value. */
  lemma ObjectInText(lib: Library, pre: string, s: string, post: string, value: Json) returns (t: string)
    requires Lawful(lib) && Writes(lib, s, value) && Conforming(value)
    requires NoBrackets(pre) && NoBrackets(post)
    ensures t == Strip(pre + s + post, IsSpace) && t != "" && Conforming(Coerce(value))
    ensures Coerced(Values(Hits(lib, t, 0))) == [Coerce(value)]
    ensures Whole(lib, t).Some? && Conforming(Whole(lib, t).value) ==> Whole(lib, t).value == value
    ensures s[0] == '{' && s[|s| - 1] == '}'
    ensures exists a, b :: t == a + s + b && NoBrackets(a) && NoBrackets(b)
  {
    hide *;
    WritesSomething(lib, s, value);
    RawMoves(lib, pre, s, post, value);
    Braces();
    CoerceIsIdempotent(value);
    var a, b := StripAround(pre, s, post);
    t := a + s + b;
    FewerBrackets(a, pre);
    FewerBrackets(b, post);
    RawMoves(lib, a, s, b, value);
    OneHit(lib, a, s, b, value);
    WholeIsIt(lib, a, s, b, value);
    OneCandidate(lib, t, value, |a|, |a| + |s|);
    assert |t| > 0;
  }

  lemma OneCandidate(lib: Library, t: string, value: Json, start: nat, end: nat)
    requires Hits(lib, t, 0) == [Hit(value, start, end)] && Conforming(value)
    ensures Conforming(Coerce(value)) && Coerced(Values(Hits(lib, t, 0))) == [Coerce(value)]
  {
    hide Hits, Conforming, Coerce, Coerced;
    CoerceIsIdempotent(value);
    assert Values(Hits(lib, t, 0)) == [value];
    JustOne([value], value);
  }

  lemma IsUnfenced(s: string)
    requires s != "" && s[0] == '{' && s[|s| - 1] == '}' && !Contains(s, FENCE)
    ensures Unfenced(s)
  {
  }

  lemma WritesSomething(lib: Library, s: string, value: Json)
    requires Writes(lib, s, value)
    ensures s != ""
  {
  }

  lemma FewerBrackets(a: string, pre: string)
    requires NoBrackets(pre) && forall c :: c in a ==> c in pre
    ensures NoBrackets(a)
  {
  }

  lemma Braces()
    ensures !IsSpace('{') && !IsSpace('}') && !JsonSpace('{') && Bracket('{')
  {
  }

  /** The whole text, should it be a conforming value, is that very object. */
  lemma WholeIsIt(lib: Library, a: string, s: string, b: string, value: Json)
    requires Lawful(lib) && s != "" && s[0] == '{' && NoBrackets(a) && (a != "" ==> !IsSpace(a[0]))
    requires lib.raw(a + s + b, |a|) == Some((value, |a| + |s|))
    ensures var whole := Whole(lib, a + s + b);
      whole.Some? && Conforming(whole.value) ==> whole.value == value
  {
    hide IsSpace, Lawful;
    Braces();
    var t := a + s + b;
    assert t[0] == if a == "" then s[0] else a[0];
    NotJsonSpace(t[0]);
    assert SkipJsonSpace(t, 0) == 0;
    if a != "" && lib.raw(t, 0).Some? {
      LawfulFits(lib, t, 0);
      assert a[0] in a && Bracket('{');
    }
  }

  lemma NotJsonSpace(c: char)
    ensures JsonSpace(c) ==> IsSpace(c)
  {
  }

  // ------------------------------------------------ a fence within the object

  const OPENING := "Here:\n```json\n"

  lemma OpeningBlock(s: string, k: nat)
    requires s != "" && s[0] == '{' && At(s, FENCE, k) && forall i :: 0 <= i < k ==> !At(s, FENCE, i)
    ensures Fences(OPENING + s) != [] && Fences(OPENING + s)[0] == s[..k]
  {
    hide Fences, Fenced, Find;
    var lead, rest := "Here:\n", FENCE + "json\n" + s;
    assert OPENING + s == lead + rest;
    LeadPlain();
    FencesBehind(lead, rest);
    FencesFirst(rest);
    FindIs(s, FENCE, k);
    OpeningFence(s);
  }

  lemma LeadPlain()
    ensures !Contains("Here:\n", FENCE)
  {
    var lead := "Here:\n";
    forall i | 0 <= i <= |lead| ensures !At(lead, FENCE, i) {
      if i + 3 <= |lead| { assert lead[i..i + 3][0] == lead[i] != '`'; }
    }
  }

  lemma OpeningFence(s: string)
    requires s != "" && s[0] == '{' && Find(s, FENCE) != -1
    ensures var k := Find(s, FENCE); Fenced(FENCE + "json\n" + s) == Some((s[..k], s[k + 3..]))
  {
    hide IsSpace, BehindBlank, Find;
    var rest, u, v := FENCE + "json\n" + s, "json\n" + s, "\n" + s;
    assert rest[3..] == u && u[..4] == "json" && u[4..] == v;
    BlankLine(s);
  }

  lemma BlankLine(s: string)
    requires s != "" && s[0] == '{'
    ensures BehindBlank("\n" + s) == Some(s)
  {
    var v := "\n" + s;
    assert v[1..] == s && !IsSpace('{');
    assert BehindBlank(s).None?;
  }

  lemma PlainAround()
    ensures NoBrackets(OPENING) && NoBrackets("\n```") && |OPENING| > 0 && OPENING[0] == 'H' && "\n```"[3] == '`'
    ensures !IsSpace('H') && !IsSpace('`')
  {
  }

  lemma Untouched(pre: string, s: string, post: string)
    requires pre != "" && !IsSpace(pre[0]) && post != "" && !IsSpace(post[|post| - 1])
    ensures Strip(pre + s + post, IsSpace) == pre + s + post
  {
    hide IsSpace;
    var t := pre + s + post;
    assert t[0] == pre[0] && t[|t| - 1] == post[|post| - 1];
    StripTrims(t, IsSpace);
  }

  lemma WholeIsNot(lib: Library, t: string)
    requires Lawful(lib) && t != "" && t[0] == 'H'
    ensures Whole(lib, t).None? || !Conforming(Whole(lib, t).value)
  {
    hide Lawful;
    assert SkipJsonSpace(t, 0) == 0;
    if lib.raw(t, 0).Some? { LawfulFits(lib, t, 0); }
  }

  /** The first fence behind `cut` is its first one in more text, too. */
  lemma FenceKept(cut: string, tail: string, post: string)
    requires FENCE <= tail && forall i :: 0 <= i < |cut| ==> !At(cut + tail, FENCE, i)
    ensures At(cut + tail + post, FENCE, |cut|)
    ensures forall i :: 0 <= i < |cut| ==> !At(cut + tail + post, FENCE, i)
  {
    assert At(tail, FENCE, 0);
    AtShift(cut, tail, FENCE, 0);
    AtPrefix(cut + tail, post, FENCE, |cut|);
    forall i | 0 <= i < |cut| ensures !At(cut + tail + post, FENCE, i) {
      AtPrefix(cut + tail, post, FENCE, i);
    }
  }

  lemma {:induction false} CoercedIn(values: seq<Json>, i: nat)
    requires i < |values| && Conforming(values[i])
    ensures Conforming(Coerce(values[i])) && Coerce(values[i]) in Coerced(values)
  {
    hide Conforming, Coerce;
    CoerceIsIdempotent(values[i]);
    var n := |values| - 1;
    if i < n { CoercedIn(values[..n], i); }
  }

  /** Where the outer object is cut off, scanning comes to the inner one. */
  lemma NestedHit(lib: Library, head: string, inner: string, mid: string, nested: Json)
    requires head != "" && head[0] == '{' && NoBrackets(head[1..]) && inner != "" && inner[0] == '{'
    requires lib.raw(head + inner + mid, 0).None? && Conforming(nested)
    requires lib.raw(head + inner + mid, |head|) == Some((nested, |head| + |inner|))
    ensures Conforming(Coerce(nested)) && Coerce(nested) in Coerced(Values(Hits(lib, head + inner + mid, 0)))
  {
    hide Hits, Conforming, Coerce, Coerced;
    var cut := head + inner + mid;
    HitsFirst(lib, cut, 0);
    assert cut[0] == '{' && cut[|head|] == '{';
    forall k | 1 <= k < |head| ensures !Bracket(cut[k]) {
      assert cut[k] == head[1..][k - 1] && head[1..][k - 1] in head[1..];
    }
    NextIs(cut, 0, 0);
    NextIs(cut, 1, |head|);
    HitsFirst(lib, cut, 1);
    assert Values(Hits(lib, cut, 0))[0] == nested;
    CoercedIn(Values(Hits(lib, cut, 0)), 0);
  }

  /** The cut-off object is a block, and what is found in it counts. */
  lemma BlockCounts(lib: Library, t: string, cut: string, h: Governed)
    requires Fences(t) != [] && Fences(t)[0] == cut
    requires cut != "" && !IsSpace(cut[0]) && !IsSpace(cut[|cut| - 1])
    requires h in Coerced(Values(Hits(lib, cut, 0)))
    ensures InBlock(lib, t, h)
  {
    hide Fences, IsSpace, Hits, Coerced, Conforming;
    StripTrims(cut, IsSpace);
    assert Trimmings(Fences(t))[0] == cut;
  }

  /** An object that carries another handoff and, behind it, a string with a fence
      in it: inside a fenced block the string ends the block, the rest of the
      object is cut off, and the inner handoff contradicts the outer one. */
  lemma FencedStringIsAmbiguous(lib: Library, head: string, inner: string, mid: string, tail: string,
    value: Json, nested: Json)
    requires Lawful(lib) && Conforming(value) && Conforming(nested)
    requires Writes(lib, head + inner + mid + tail, value) && Writes(lib, inner, nested)
    requires head != "" && head[0] == '{' && NoBrackets(head[1..]) && mid != "" && !IsSpace(mid[|mid| - 1])
    requires lib.raw(head + inner + mid, 0).None?
    requires FENCE <= tail
    requires forall i :: 0 <= i < |head + inner + mid| ==> !At(head + inner + mid + tail, FENCE, i)
    requires lib.dump(Coerce(nested)) != lib.dump(Coerce(value))
    ensures Extracted(lib, OPENING + (head + inner + mid + tail) + "\n```") == Ambiguous
  {
    hide *;
    var s, cut, post := head + inner + mid + tail, head + inner + mid, "\n```";
    PlainAround();
    Braces();
    var t := ObjectInText(lib, OPENING, s, post, value);
    Untouched(OPENING, s, post);
    assert t[0] == OPENING[0];
    WholeIsNot(lib, t);
    FenceKept(cut, tail, post);
    assert cut + tail + post == s + post && (s + post)[0] == s[0];
    OpeningBlock(s + post, |cut|);
    assert t == OPENING + (s + post) && (s + post)[..|cut|] == cut;
    WritesSomething(lib, inner, nested);
    RawMoves(lib, head, inner, mid, nested);
    NestedHit(lib, head, inner, mid, nested);
    assert cut[0] == head[0] && cut[|cut| - 1] == mid[|mid| - 1];
    KeyOfCoerced(lib, value);
    KeyOfCoerced(lib, nested);
    BlockCounts(lib, t, cut, Coerce(nested));
    FoundIffCandidatesAgree(lib, OPENING + s + post);
    AgreeIffBlocksDo(lib, t, Coerce(value));
    Outcomes(lib, OPENING + s + post);
  }

  lemma Outcomes(lib: Library, result: string)
    ensures var r := Extracted(lib, result); r.Found? || r.Nothing? || r.Ambiguous? || r.Empty?
    ensures Strip(result, IsSpace) != "" ==> !Extracted(lib, result).Empty?
  {
    hide Strip, Whole, Conforming, Distinct, Candidates, CandidateTexts, Keys, Coerce;
  }

  // The input at which it happens, with a library that knows just these objects.

  const HEAD := "{\"usage\":"
  const INNER := "{\"summary\":\"a\",\"checks\":[],\"artifacts\":[]}"
  const MID := ",\"summary\":\""
  const TAIL := FENCE + "\",\"checks\":[],\"artifacts\":[]}"
  const OUTER := HEAD + INNER + MID + TAIL

  const NESTED := Dict(map["summary" := Str("a"), "checks" := List([]), "artifacts" := List([])])
  const CARRIER := Dict(map["usage" := NESTED, "summary" := Str(FENCE), "checks" := List([]), "artifacts" := List([])])

  function Read(t: string, i: nat): Option<(Json, nat)> {
    if i > |t| then None
    else if OUTER <= t[i..] then Some((CARRIER, i + |OUTER|))
    else if INNER <= t[i..] then Some((NESTED, i + |INNER|))
    else None
  }

  function Dump(value: Json): string { if value == Coerce(NESTED) then "a" else "b" }

  const EXAMPLE := Library(Read, Dump)

  lemma ObjectTexts()
    ensures |OUTER| >= 3 && OUTER[0] == '{' && OUTER[|OUTER| - 1] == '}' && OUTER[2] == 'u'
    ensures |INNER| >= 3 && INNER[0] == '{' && INNER[|INNER| - 1] == '}' && INNER[2] == 's'
  {
    assert OUTER[0] == HEAD[0] && OUTER[2] == HEAD[2] && OUTER[|OUTER| - 1] == TAIL[|TAIL| - 1];
  }

  lemma ReadFits(t: string, i: nat)
    requires Read(t, i).Some?
    ensures Fits(t, i, Read(t, i).value.0, Read(t, i).value.1)
    ensures var end := Read(t, i).value.1; t[i..end] == OUTER || t[i..end] == INNER
  {
    hide OUTER, INNER;
    ObjectTexts();
    var end := Read(t, i).value.1;
    assert t[i..][..end - i] == t[i..end];
    assert t[end - 1] == t[i..end][end - i - 1];
  }

  lemma ReadMoves(t: string, i: nat, t': string, i': nat)
    requires Read(t, i).Some? && SameText(t, i, Read(t, i).value.1, t', i')
    ensures Read(t', i') == Some((Read(t, i).value.0, (i' + Read(t, i).value.1 - i) as nat))
  {
    hide OUTER, INNER;
    ObjectTexts();
    ReadFits(t, i);
    var end := Read(t, i).value.1;
    var w := t[i..end];
    assert t'[i'..][..|w|] == w;
    assert t[i..][..|w|] == w;
    assert t'[i'..][2] == w[2] && t[i..][2] == w[2];
  }

  lemma ExampleIsLawful()
    ensures Lawful(EXAMPLE)
  {
    hide Read;
    forall t, i: nat | EXAMPLE.raw(t, i).Some? ensures Fits(t, i, EXAMPLE.raw(t, i).value.0, EXAMPLE.raw(t, i).value.1) {
      ReadFits(t, i);
    }
    forall t, i: nat, t', i': nat |
      EXAMPLE.raw(t, i).Some? && i < |t| && Bracket(t[i]) && SameText(t, i, EXAMPLE.raw(t, i).value.1, t', i')
      ensures EXAMPLE.raw(t', i') == Some((EXAMPLE.raw(t, i).value.0, (i' + EXAMPLE.raw(t, i).value.1 - i) as nat))
    {
      ReadMoves(t, i, t', i');
    }
  }

  lemma ExampleReads()
    ensures Writes(EXAMPLE, OUTER, CARRIER) && Writes(EXAMPLE, INNER, NESTED)
    ensures EXAMPLE.raw(HEAD + INNER + MID, 0).None?
  {
    hide OUTER, INNER;
    ObjectTexts();
    assert OUTER[0..] == OUTER && INNER[0..] == INNER;
    var cut := HEAD + INNER + MID;
    assert cut[0..] == cut && cut[2] == HEAD[2];
    assert |OUTER| == |cut| + |TAIL| by { Lengths(); }
  }

  lemma Lengths()
    ensures |OUTER| == |HEAD + INNER + MID| + |TAIL|
  {
  }

  lemma ExampleConforms()
    ensures Conforming(CARRIER) && Conforming(NESTED)
    ensures Coerce(CARRIER) != Coerce(NESTED)
  {
    KeysDiffer();
    assert CARRIER.fields["summary"].s[0] == '`' && NESTED.fields["summary"].s[0] == 'a';
    assert Coerce(CARRIER).fields["summary"] == Str(FENCE) && Coerce(NESTED).fields["summary"] == Str("a");
  }

  /** No back quote stands before the string. */
  lemma NoEarlyFence()
    ensures forall i :: 0 <= i < |HEAD + INNER + MID| ==> !At(HEAD + INNER + MID + TAIL, FENCE, i)
  {
    var cut := HEAD + INNER + MID;
    assert forall i :: 0 <= i < |HEAD| ==> HEAD[i] != '`';
    assert forall i :: 0 <= i < |INNER| ==> INNER[i] != '`';
    assert forall i :: 0 <= i < |MID| ==> MID[i] != '`';
    hide HEAD, INNER, MID, TAIL;
    forall i | 0 <= i < |cut| ensures !At(cut + TAIL, FENCE, i) {
      assert (cut + TAIL)[i] == cut[i] != '`';
      if i + 3 <= |cut + TAIL| { assert (cut + TAIL)[i..i + 3][0] == (cut + TAIL)[i]; }
    }
  }

  lemma ExampleShape()
    ensures HEAD != "" && HEAD[0] == '{' && NoBrackets(HEAD[1..]) && MID != "" && !IsSpace(MID[|MID| - 1])
    ensures FENCE <= TAIL && OUTER == HEAD + INNER + MID + TAIL
  {
    assert forall k :: 1 <= k < |HEAD| ==> !Bracket(HEAD[k]);
  }

  /** The answer `Here:`, then the object in a fenced block: although the text
      around it has no bracket, the handoff is not extracted. */
  lemma FenceInStringFails()
    ensures Lawful(EXAMPLE) && Writes(EXAMPLE, OUTER, CARRIER) && Conforming(CARRIER)
    ensures NoBrackets(OPENING) && NoBrackets("\n```")
    ensures Extracted(EXAMPLE, OPENING + OUTER + "\n```") == Ambiguous
  {
    hide *;
    ExampleIsLawful();
    ExampleReads();
    ExampleConforms();
    ExampleKeys();
    NoEarlyFence();
    ExampleShape();
    PlainAround();
    FencedStringIsAmbiguous(EXAMPLE, HEAD, INNER, MID, TAIL, CARRIER, NESTED);
  }

  lemma ExampleKeys()
    requires Conforming(CARRIER) && Conforming(NESTED) && Coerce(CARRIER) != Coerce(NESTED)
    ensures EXAMPLE.dump(Coerce(NESTED)) != EXAMPLE.dump(Coerce(CARRIER))
  {
    hide Coerce, CARRIER, NESTED;
    assert "a"[0] != "b"[0];
  }
}
