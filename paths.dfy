/** Request paths as `/`-separated segments. */
module Paths {

  /** The segments of `s` between its `/` characters; a path with a leading
      `/` starts with an empty segment. */
  function Split(s: string): (r: seq<string>)
    ensures |r| >= 1
    decreases |s|
  {
    if s == [] then [[]]
    else
      var tail := Split(s[1..]);
      if s[0] == '/' then [[]] + tail else [[s[0]] + tail[0]] + tail[1..]
  }

  function Join(segments: seq<string>): string
    requires |segments| >= 1
  {
    if |segments| == 1 then segments[0] else segments[0] + "/" + Join(segments[1..])
  }

  lemma Join2(a: string, b: string)
    ensures Join([a, b]) == a + "/" + b
  {
    assert [a, b][1..] == [b];
  }

  lemma Join3(a: string, b: string, c: string)
    ensures Join([a, b, c]) == a + "/" + b + "/" + c
  {
    assert [a, b, c][1..] == [b, c];
    Join2(b, c);
  }

  lemma Join4(a: string, b: string, c: string, d: string)
    ensures Join([a, b, c, d]) == a + "/" + b + "/" + c + "/" + d
  {
    assert [a, b, c, d][1..] == [b, c, d];
    Join3(b, c, d);
  }

  lemma Join5(a: string, b: string, c: string, d: string, e: string)
    ensures Join([a, b, c, d, e]) == a + "/" + b + "/" + c + "/" + d + "/" + e
  {
    assert [a, b, c, d, e][1..] == [b, c, d, e];
    Join4(b, c, d, e);
  }

  predicate IsSegment(s: string) {
    '/' !in s
  }

  lemma {:induction false} SplitSegment(x: string)
    requires IsSegment(x)
    ensures Split(x) == [x]
  {
    if x != [] {
      SplitSegment(x[1..]);
      assert [x[0]] + x[1..] == x;
    }
  }

  lemma {:induction false} SplitSlash(x: string, y: string)
    requires IsSegment(x)
    ensures Split(x + "/" + y) == [x] + Split(y)
  {
    var s := x + "/" + y;
    if x == [] {
      assert s[1..] == y;
    } else {
      assert s[1..] == x[1..] + "/" + y;
      SplitSlash(x[1..], y);
      assert [x[0]] + x[1..] == x;
    }
  }

  lemma SplitRooted(x: string, y: string)
    requires IsSegment(x) && IsSegment(y)
    ensures Split("/" + x + "/" + y) == ["", x, y]
  {
    assert "/" + x + "/" + y == [] + "/" + (x + "/" + y);
    SplitSlash([], x + "/" + y);
    SplitSlash(x, y);
    SplitSegment(y);
  }

  /** Splitting a joined path gives back its segments, provided no segment
      holds a `/`. */
  lemma {:induction false} SplitJoin(segments: seq<string>)
    requires |segments| >= 1
    requires forall i :: 0 <= i < |segments| ==> IsSegment(segments[i])
    ensures Split(Join(segments)) == segments
  {
    if |segments| == 1 {
      SplitSegment(segments[0]);
    } else {
      SplitSlash(segments[0], Join(segments[1..]));
      SplitJoin(segments[1..]);
    }
  }
}
