/** Splitting source text at line breaks, and the inverse join. */
module Text {

  /** The characters of a NUL-terminated C string, without its terminator. */
  type CString = s: string | '\0' !in s

  /** Number of '\n' characters in s. */
  function Newlines(s: string): nat
  {
    if s == [] then 0 else (if s[0] == '\n' then 1 else 0) + Newlines(s[1..])
  }

  lemma {:induction false} NewlinesAppend(a: string, b: string)
    ensures Newlines(a + b) == Newlines(a) + Newlines(b)
  {
    if a == [] {
      assert a + b == b;
    } else {
      assert (a + b)[1..] == a[1..] + b;
      NewlinesAppend(a[1..], b);
    }
  }

  lemma {:induction false} NewlinesSlices(s: string, a: nat, b: nat, c: nat)
    requires a <= b <= c <= |s|
    ensures Newlines(s[a..c]) == Newlines(s[a..b]) + Newlines(s[b..c])
  {
    assert s[a..c] == s[a..b] + s[b..c];
    NewlinesAppend(s[a..b], s[b..c]);
  }

  /** Crossing the line break at e adds one to the count. */
  lemma {:induction false} NewlinesAcross(s: string, a: nat, e: nat, c: nat)
    requires a <= e < c <= |s| && s[e] == '\n'
    ensures Newlines(s[a..c]) == Newlines(s[a..e]) + 1 + Newlines(s[e + 1..c])
  {
    NewlinesSlices(s, a, e, c);
    NewlinesSlices(s, e, e + 1, c);
    assert s[e..e + 1] == [s[e]];
  }

  /** The first line break at or after i, or |s| when there is none. */
  function NextNewline(s: string, i: nat): (e: nat)
    requires i <= |s|
    ensures i <= e <= |s|
    ensures e < |s| ==> s[e] == '\n'
    decreases |s| - i
  {
    if i == |s| || s[i] == '\n' then i else NextNewline(s, i + 1)
  }

  /** The text from i up to NextNewline(s, i) holds no line break. */
  lemma {:induction false} SegmentClean(s: string, i: nat)
    requires i <= |s|
    ensures '\n' !in s[i..NextNewline(s, i)]
    ensures Newlines(s[i..NextNewline(s, i)]) == 0
    decreases |s| - i
  {
    var e := NextNewline(s, i);
    if i < |s| && s[i] != '\n' {
      SegmentClean(s, i + 1);
      assert s[i..e] == [s[i]] + s[i + 1..e];
    }
  }

  /** NextNewline finds the first line break: one at e with none before it. */
  lemma {:induction false} NextNewlineAt(s: string, i: nat, e: nat)
    requires i <= e <= |s|
    requires '\n' !in s[i..e]
    requires e == |s| || s[e] == '\n'
    ensures NextNewline(s, i) == e
    decreases e - i
  {
    if i < e {
      assert s[i] == s[i..e][0];
      assert s[i + 1..e] == s[i..e][1..];
      NextNewlineAt(s, i + 1, e);
    }
  }

  /** A line break at end, at or before the first line break after i, is that first one. */
  lemma {:induction false} NextNewlineReached(s: string, i: nat, end: nat)
    requires end < |s| && i <= end <= NextNewline(s, i) && s[end] == '\n'
    ensures NextNewline(s, i) == end
    decreases end - i
  {
    if i < end {
      NextNewlineReached(s, i + 1, end);
    }
  }

  /** The segments of s[start..] between line breaks, the last one possibly empty. */
  function SplitFrom(s: string, start: nat): (r: seq<string>)
    requires start <= |s|
    ensures |r| >= 1
    decreases |s| - start
  {
    var e := NextNewline(s, start);
    if e == |s| then [s[start..]] else [s[start..e]] + SplitFrom(s, e + 1)
  }

  /** The offset in s at which each segment of SplitFrom(s, start) begins. */
  function SplitStarts(s: string, start: nat): (r: seq<nat>)
    requires start <= |s|
    ensures |r| == |SplitFrom(s, start)|
    decreases |s| - start
  {
    var e := NextNewline(s, start);
    if e == |s| then [start] else [start] + SplitStarts(s, e + 1)
  }

  function Split(s: string): seq<string>
  {
    SplitFrom(s, 0)
  }

  /** The parts separated by single line breaks. */
  function Join(parts: seq<string>): string
  {
    if |parts| == 0 then ""
    else if |parts| == 1 then parts[0]
    else parts[0] + ("\n" + Join(parts[1..]))
  }

  /** A text with k line breaks has exactly k + 1 segments. */
  lemma {:induction false} SplitFromCount(s: string, start: nat)
    requires start <= |s|
    ensures |SplitFrom(s, start)| == Newlines(s[start..]) + 1
    decreases |s| - start
  {
    var e := NextNewline(s, start);
    SegmentClean(s, start);
    if e == |s| {
      assert s[start..e] == s[start..];
    } else {
      var rest := SplitFrom(s, e + 1);
      assert |SplitFrom(s, start)| == 1 + |rest|;
      SplitFromCount(s, e + 1);
      NewlinesAcross(s, start, e, |s|);
      assert s[start..|s|] == s[start..] && s[e + 1..|s|] == s[e + 1..];
    }
  }

  lemma {:induction false} SplitCount(s: string)
    ensures |Split(s)| == Newlines(s) + 1
  {
    SplitFromCount(s, 0);
    assert s[0..] == s;
  }

  /** Segment i of s[start..] is the text from its start up to the next line break. */
  lemma {:induction false} SplitFromSegment(s: string, start: nat, i: nat)
    requires start <= |s|
    requires i < |SplitFrom(s, start)|
    ensures start <= SplitStarts(s, start)[i] <= |s|
    ensures var o := SplitStarts(s, start)[i];
      SplitFrom(s, start)[i] == s[o..NextNewline(s, o)]
    decreases |s| - start
  {
    if i > 0 {
      SplitFromSegment(s, NextNewline(s, start) + 1, i - 1);
    }
  }

  /** Segment i of s[start..] follows exactly i line breaks of s[start..]. */
  lemma {:induction false} SplitFromLinesBefore(s: string, start: nat, i: nat)
    requires start <= |s|
    requires i < |SplitFrom(s, start)|
    ensures start <= SplitStarts(s, start)[i] <= |s|
    ensures Newlines(s[start..SplitStarts(s, start)[i]]) == i
    decreases |s| - start
  {
    if i > 0 {
      var e := NextNewline(s, start);
      assert e < |s|;
      SplitFromLinesBefore(s, e + 1, i - 1);
      var rest := SplitStarts(s, e + 1);
      var o := rest[i - 1];
      assert SplitStarts(s, start) == [start] + rest;
      assert ([start] + rest)[i] == o;
      SegmentClean(s, start);
      NewlinesAcross(s, start, e, o);
    }
  }

  /** Segment i lies in s at SplitStarts(s, start)[i], holds no line break, ends at a
      line break or at the end of s, and follows exactly i line breaks of s[start..]. */
  lemma {:induction false} SplitFromAt(s: string, start: nat, i: nat)
    requires start <= |s|
    requires i < |SplitFrom(s, start)|
    ensures var o, seg := SplitStarts(s, start)[i], SplitFrom(s, start)[i];
      start <= o && o + |seg| <= |s| && s[o..o + |seg|] == seg &&
      '\n' !in seg &&
      (o + |seg| == |s| || s[o + |seg|] == '\n') &&
      Newlines(s[start..o]) == i
  {
    SplitFromSegment(s, start, i);
    SplitFromLinesBefore(s, start, i);
    SegmentClean(s, SplitStarts(s, start)[i]);
  }

  /** No segment contains a line break. */
  lemma {:induction false} SplitNoNewline(s: string, i: nat)
    requires i < |Split(s)|
    ensures '\n' !in Split(s)[i]
  {
    SplitFromAt(s, 0, i);
  }

  lemma SliceAtNewline(s: string, a: nat, e: nat)
    requires a <= e < |s| && s[e] == '\n'
    ensures s[a..] == s[a..e] + ("\n" + s[e + 1..])
  {
    assert s[a..] == s[a..e] + s[e..];
    assert s[e..] == [s[e]] + s[e + 1..];
  }

  lemma {:induction false} JoinCons(p: string, rest: seq<string>)
    requires |rest| >= 1
    ensures Join([p] + rest) == p + ("\n" + Join(rest))
  {
    assert ([p] + rest)[1..] == rest;
  }

  /** Joining the segments of s[start..] with line breaks gives s[start..] back. */
  lemma {:induction false} JoinSplitFrom(s: string, start: nat)
    requires start <= |s|
    ensures Join(SplitFrom(s, start)) == s[start..]
    decreases |s| - start
  {
    var e := NextNewline(s, start);
    if e < |s| {
      var rest := SplitFrom(s, e + 1);
      JoinSplitFrom(s, e + 1);
      JoinCons(s[start..e], rest);
      SliceAtNewline(s, start, e);
    }
  }

  lemma {:induction false} JoinSplit(s: string)
    ensures Join(Split(s)) == s
  {
    JoinSplitFrom(s, 0);
    assert s[0..] == s;
  }

  lemma {:induction false} NextNewlineShift(x: string, y: string, i: nat)
    requires i <= |y|
    ensures NextNewline(x + y, |x| + i) == |x| + NextNewline(y, i)
    decreases |y| - i
  {
    if i < |y| && y[i] != '\n' {
      assert (x + y)[|x| + i] == y[i];
      NextNewlineShift(x, y, i + 1);
    } else if i < |y| {
      assert (x + y)[|x| + i] == y[i];
    }
  }

  /** Splitting does not look behind its starting offset. */
  lemma {:induction false} SplitFromShift(x: string, y: string, i: nat)
    requires i <= |y|
    ensures SplitFrom(x + y, |x| + i) == SplitFrom(y, i)
    decreases |y| - i
  {
    NextNewlineShift(x, y, i);
    var e := NextNewline(y, i);
    if e < |y| {
      assert (x + y)[|x| + i..|x| + e] == y[i..e];
      SplitFromShift(x, y, e + 1);
    } else {
      assert (x + y)[|x| + i..] == y[i..];
    }
  }

  /** Splitting a join of line-free parts gives the parts back. */
  lemma {:induction false} SplitJoin(parts: seq<string>)
    requires |parts| >= 1
    requires forall k :: 0 <= k < |parts| ==> '\n' !in parts[k]
    ensures Split(Join(parts)) == parts
  {
    var p := parts[0];
    if |parts| == 1 {
      assert p[0..] == p;
      NextNewlineAt(p, 0, |p|);
    } else {
      var rest := Join(parts[1..]);
      var s := p + ("\n" + rest);
      assert s == (p + "\n") + rest;
      assert s[|p|] == '\n';
      assert s[0..|p|] == p;
      NextNewlineAt(s, 0, |p|);
      SplitFromShift(p + "\n", rest, 0);
      SplitJoin(parts[1..]);
      assert parts == [p] + parts[1..];
    }
  }

  /** Segment i of s, with s placed between pre and post, sits after the line breaks of pre
      and the i line breaks of s before it. */
  lemma {:induction false} SegmentInContext(pre: string, s: string, post: string, i: nat)
    requires i < |Split(s)|
    ensures var c, o, seg := pre + (s + post), |pre| + SplitStarts(s, 0)[i], Split(s)[i];
      o + |seg| <= |c| && c[o..o + |seg|] == seg && Newlines(c[..o]) == Newlines(pre) + i
  {
    SplitFromAt(s, 0, i);
    var o, seg := SplitStarts(s, 0)[i], Split(s)[i];
    var c := pre + (s + post);
    assert c[|pre| + o..|pre| + o + |seg|] == s[o..o + |seg|];
    assert c[..|pre| + o] == pre + s[0..o];
    NewlinesAppend(pre, s[0..o]);
  }
}
