/** The bytes a bundle's content hash is taken of: the manifest's canonical JSON,
    then one length-prefixed frame for each referenced file, sorted by path. */
module BundleHash {
  import opened Text

  type Byte = x: int | 0 <= x < 256
  type Bytes = seq<Byte>

  /** Lengths that `struct.pack(">I", n)` accepts; it raises for others. */
  const LIMIT := 0x1_0000_0000

  datatype Segment = Segment(path: Bytes, payload: Bytes) {
    predicate Fits() { |path| < LIMIT && |payload| < LIMIT }
  }

  function U32(n: nat): (r: Bytes)
    requires n < LIMIT
    ensures |r| == 4
  {
    [n / 0x100_0000, n / 0x1_0000 % 256, n / 256 % 256, n % 256]
  }

  function Weighted(digit: nat, weight: nat): nat { digit * weight }

  function FromU32(b: Bytes): nat
    requires |b| == 4
  {
    Weighted(b[0], 0x100_0000) + Weighted(b[1], 0x1_0000) + Weighted(b[2], 256) + b[3]
  }

  lemma U32RoundTrip(n: nat)
    requires n < LIMIT
    ensures FromU32(U32(n)) == n
  {
    var a, b := n / 256, n / 0x1_0000;
    assert b == a / 256 && n / 0x100_0000 == b / 256;
  }

  function Frame(s: Segment): Bytes
    requires s.Fits()
  {
    [0] + U32(|s.path|) + s.path + U32(|s.payload|) + s.payload
  }

  predicate AllFit(segments: seq<Segment>) {
    forall s :: s in segments ==> s.Fits()
  }

  /** All frames, each appended to those before it. */
  function Frames(segments: seq<Segment>): Bytes
    requires AllFit(segments)
  {
    if segments == [] then []
    else Frames(segments[..|segments| - 1]) + Frame(segments[|segments| - 1])
  }

  // ------------------------------------------------------------- decoding

  /** The segment a byte string starts with, and the bytes behind it. */
  function Front(b: Bytes): (r: Option<(Segment, Bytes)>)
    ensures r.Some? ==> |r.value.1| < |b|
  {
    if |b| < 5 || b[0] != 0 then None
    else
      var n := FromU32(b[1..5]);
      var tail := b[5..];
      if |tail| < n + 4 then None
      else
        var m := FromU32(tail[n..n + 4]);
        var rest := tail[n + 4..];
        if |rest| < m then None
        else Some((Segment(tail[..n], rest[..m]), rest[m..]))
  }

  /** Takes the frames apart again. */
  function Decode(b: Bytes): Option<seq<Segment>>
    decreases |b|
  {
    if b == [] then Some([])
    else
      match Front(b)
      case None => None
      case Some(front) =>
        match Decode(front.1)
        case None => None
        case Some(others) => Some([front.0] + others)
  }

  lemma FrontOfFrame(s: Segment, rest: Bytes)
    requires s.Fits()
    ensures Front(Frame(s) + rest) == Some((s, rest))
  {
    hide FromU32, U32;
    var n, m := |s.path|, |s.payload|;
    var b := Frame(s) + rest;
    U32RoundTrip(n);
    U32RoundTrip(m);
    assert b[0] == 0;
    assert b[1..5] == U32(n);
    var tail := b[5..];
    assert tail == s.path + U32(m) + s.payload + rest;
    assert tail[..n] == s.path;
    assert tail[n..n + 4] == U32(m);
    var back := tail[n + 4..];
    assert back == s.payload + rest;
    assert back[..m] == s.payload && back[m..] == rest;
  }

  lemma {:induction false} FramesFront(s: Segment, segments: seq<Segment>)
    requires s.Fits() && AllFit(segments)
    ensures AllFit([s] + segments)
    ensures Frames([s] + segments) == Frame(s) + Frames(segments)
  {
    hide Frame;
    if segments == [] {
      assert ([s] + segments)[..0] == [];
    } else {
      var n := |segments| - 1;
      FramesFront(s, segments[..n]);
      assert ([s] + segments)[..n + 1] == [s] + segments[..n];
      Assoc(Frame(s), Frames(segments[..n]), Frame(segments[n]));
    }
  }

  /** Decoding the concatenated frames returns the very list of labels and payloads. */
  lemma {:induction false} DecodeFrames(segments: seq<Segment>)
    requires AllFit(segments)
    ensures Decode(Frames(segments)) == Some(segments)
  {
    if segments != [] {
      hide Front;
      assert AllFit(segments[1..]);
      FramesFront(segments[0], segments[1..]);
      assert [segments[0]] + segments[1..] == segments;
      FrontOfFrame(segments[0], Frames(segments[1..]));
      DecodeFrames(segments[1..]);
      hide Frame;
      assert Frames(segments) != [] by {
        FrontOfFrame(segments[0], Frames(segments[1..]));
        assert |Frame(segments[0])| > 0 by { FrameStart(segments[0]); }
      }
    }
  }

  lemma FrameStart(s: Segment)
    requires s.Fits()
    ensures |Frame(s)| > 0 && Frame(s)[0] == 0
  {
  }

  lemma FramesStart(segments: seq<Segment>)
    requires AllFit(segments) && segments != []
    ensures |Frames(segments)| > 0 && Frames(segments)[0] == 0
  {
    hide Frame;
    assert AllFit(segments[1..]);
    FramesFront(segments[0], segments[1..]);
    assert [segments[0]] + segments[1..] == segments;
    FrameStart(segments[0]);
  }

  /** Canonical JSON escapes control characters, so it holds no zero byte. The
      digest input then determines both the JSON and every frame. */
  lemma InputDetermines(json: Bytes, segments: seq<Segment>, json': Bytes, segments': seq<Segment>)
    requires AllFit(segments) && AllFit(segments') && 0 !in json && 0 !in json'
    requires json + Frames(segments) == json' + Frames(segments')
    ensures json == json' && segments == segments'
  {
    hide Frames;
    if |json| < |json'| {
      JsonNotShorter(json, segments, json', segments');
    } else if |json'| < |json| {
      JsonNotShorter(json', segments', json, segments);
    }
    var input := json + Frames(segments);
    assert json == input[..|json|] == json';
    assert Frames(segments) == input[|json|..] == Frames(segments');
    DecodeFrames(segments);
    DecodeFrames(segments');
  }

  lemma JsonNotShorter(json: Bytes, segments: seq<Segment>, json': Bytes, segments': seq<Segment>)
    requires AllFit(segments) && AllFit(segments') && 0 !in json'
    requires json + Frames(segments) == json' + Frames(segments')
    ensures |json| >= |json'|
  {
    hide Frames;
    if segments != [] {
      FramesStart(segments);
      var input := json + Frames(segments);
      assert input[|json|] == 0;
      assert forall k :: 0 <= k < |json'| ==> input[k] == json'[k];
    } else {
      assert Frames(segments) == [] by { NoFrames(segments); }
    }
  }

  lemma NoFrames(segments: seq<Segment>)
    requires segments == []
    ensures Frames(segments) == []
  {
  }

  // ---------------------------------------------------------------- UTF-8

  function Utf8Char(c: char): (r: Bytes)
    ensures 1 <= |r| <= 4
    ensures 0 in r <==> c == '\0'
  {
    var n := c as int;
    if n < 0x80 then [n]
    else if n < 0x800 then [0xC0 + n / 64, 0x80 + n % 64]
    else if n < 0x1_0000 then [0xE0 + n / 4096, 0x80 + n / 64 % 64, 0x80 + n % 64]
    else [0xF0 + n / 262144, 0x80 + n / 4096 % 64, 0x80 + n / 64 % 64, 0x80 + n % 64]
  }

  function Utf8(s: string): Bytes {
    if s == "" then [] else Utf8Char(s[0]) + Utf8(s[1..])
  }

  lemma CharFromFirst(c: char, d: char, x: Bytes, y: Bytes)
    requires Utf8Char(c) + x == Utf8Char(d) + y
    ensures c == d && x == y
  {
    var b := Utf8Char(c) + x;
    var p, q := Utf8Char(c), Utf8Char(d);
    assert b[0] == p[0] == q[0];
    assert |p| == |q|;
    assert p == b[..|p|] == q;
    assert x == b[|p|..] == y;
    CharCode(c);
    CharCode(d);
  }

  function CodePoint(r: Bytes): int
    requires 1 <= |r| <= 4
  {
    var a: int, n := r[0], |r|;
    if n == 1 then a
    else if n == 2 then (a - 0xC0) * 64 + Tail(r[1])
    else if n == 3 then (a - 0xE0) * 4096 + Tail(r[1]) * 64 + Tail(r[2])
    else (a - 0xF0) * 262144 + Tail(r[1]) * 4096 + Tail(r[2]) * 64 + Tail(r[3])
  }

  function Tail(b: int): int { b - 0x80 }

  /** The code point can be read back from its bytes. */
  lemma CharCode(c: char)
    ensures CodePoint(Utf8Char(c)) == c as int
  {
    var n := c as int;
    assert n / 4096 == n / 64 / 64 && n / 262144 == n / 4096 / 64;
  }

  /** Characters are written in the shortest form, each byte marked as RFC 3629,
      section 3, has it. */
  lemma Utf8IsShortest(c: char)
    ensures var r, n := Utf8Char(c), c as int;
      && |r| == (if n < 0x80 then 1 else if n < 0x800 then 2 else if n < 0x1_0000 then 3 else 4)
      && (|r| == 1 ==> r[0] < 0x80) && (|r| == 2 ==> 0xC0 <= r[0] < 0xE0)
      && (|r| == 3 ==> 0xE0 <= r[0] < 0xF0) && (|r| == 4 ==> 0xF0 <= r[0] < 0xF8)
      && (forall k :: 1 <= k < |r| ==> 0x80 <= r[k] < 0xC0)
      && CodePoint(r) == n
  {
    CharCode(c);
  }

  lemma {:induction false} Utf8Injective(s: string, t: string)
    requires Utf8(s) == Utf8(t)
    ensures s == t
  {
    if s != "" && t != "" {
      hide Utf8Char;
      CharFromFirst(s[0], t[0], Utf8(s[1..]), Utf8(t[1..]));
      Utf8Injective(s[1..], t[1..]);
    }
  }
}
