/** The line-numbered dump of a list of source blobs (printCodeWithLines). */
module SourceDump {
  import opened Text
  import opened Format

  /** segs numbered consecutively from first. */
  function Number(segs: seq<string>, first: nat): (r: seq<Line>)
    ensures |r| == |segs|
  {
    seq(|segs|, i requires 0 <= i < |segs| => Line(first + i, segs[i]))
  }

  /** The blobs one after the other, as the compiler receives them. */
  function Concat(blobs: seq<string>): string
  {
    if blobs == [] then "" else blobs[0] + Concat(blobs[1..])
  }

  lemma {:induction false} ConcatAppend(x: seq<string>, y: seq<string>)
    ensures Concat(x + y) == Concat(x) + Concat(y)
  {
    if x == [] {
      assert x + y == y;
    } else {
      assert (x + y)[1..] == x[1..] + y;
      ConcatAppend(x[1..], y);
    }
  }

  /** The counter once segs, numbered from first, are printed: the last segment's number. */
  function Last(segs: seq<string>, first: nat): nat
  {
    if segs == [] then first else first + |segs| - 1
  }

  /** The records for blobs already split into segments: the counter carries over from
      one blob's last segment to the next blob's first. */
  function DumpSegs(segss: seq<seq<string>>, first: nat): seq<Line>
  {
    if segss == [] then [] else Number(segss[0], first) + DumpSegs(segss[1..], Last(segss[0], first))
  }

  /** The counter once all of segss is printed. */
  function LastAll(segss: seq<seq<string>>, first: nat): nat
  {
    if segss == [] then first else LastAll(segss[1..], Last(segss[0], first))
  }

  lemma {:induction false} DumpSegsAppend(x: seq<seq<string>>, y: seq<seq<string>>, first: nat)
    ensures DumpSegs(x + y, first) == DumpSegs(x, first) + DumpSegs(y, LastAll(x, first))
    ensures LastAll(x + y, first) == LastAll(y, LastAll(x, first))
  {
    if x == [] {
      assert x + y == y;
    } else {
      assert (x + y)[1..] == x[1..] + y;
      DumpSegsAppend(x[1..], y, Last(x[0], first));
    }
  }

  function SplitAll(blobs: seq<string>): (r: seq<seq<string>>)
    ensures |r| == |blobs|
  {
    seq(|blobs|, i requires 0 <= i < |blobs| => Split(blobs[i]))
  }

  /** The records the dump emits for blobs when its counter starts at first. */
  function Dump(blobs: seq<string>, first: nat): seq<Line>
  {
    DumpSegs(SplitAll(blobs), first)
  }

  lemma {:induction false} SplitAllSlices(blobs: seq<string>, b: nat)
    requires b <= |blobs|
    ensures SplitAll(blobs) == SplitAll(blobs[..b]) + SplitAll(blobs[b..])
  {
  }

  /** The counter ends at first plus the number of line breaks in all the blobs. */
  lemma {:induction false} LastAllCounts(blobs: seq<string>, first: nat)
    ensures LastAll(SplitAll(blobs), first) == first + Newlines(Concat(blobs))
  {
    if blobs != [] {
      var segss := SplitAll(blobs);
      assert segss[1..] == SplitAll(blobs[1..]);
      SplitCount(blobs[0]);
      LastAllCounts(blobs[1..], Last(segss[0], first));
      NewlinesAppend(blobs[0], Concat(blobs[1..]));
    }
  }

  /** One record per line break plus one per blob. */
  lemma {:induction false} DumpLength(blobs: seq<string>, first: nat)
    ensures |Dump(blobs, first)| == Newlines(Concat(blobs)) + |blobs|
  {
    if blobs != [] {
      var segss := SplitAll(blobs);
      assert segss[1..] == SplitAll(blobs[1..]);
      SplitCount(blobs[0]);
      DumpLength(blobs[1..], Last(segss[0], first));
      NewlinesAppend(blobs[0], Concat(blobs[1..]));
    }
  }

  /** The records of blob b are its segments numbered from first plus the line breaks of
      the blobs before it: the counter is shared by all blobs and never reset. */
  lemma {:induction false} DumpBlob(blobs: seq<string>, first: nat, b: nat)
    requires b < |blobs|
    ensures var pre, d := Dump(blobs[..b], first), Dump(blobs, first);
      |pre| + |Split(blobs[b])| <= |d| &&
      d[|pre|..|pre| + |Split(blobs[b])|]
        == Number(Split(blobs[b]), first + Newlines(Concat(blobs[..b])))
  {
    var x, y := SplitAll(blobs[..b]), SplitAll(blobs[b..]);
    SplitAllSlices(blobs, b);
    DumpSegsAppend(x, y, first);
    LastAllCounts(blobs[..b], first);
    assert y[0] == Split(blobs[b]);
  }

  /** When no segment holds a line break, no record does. */
  lemma {:induction false} DumpSegsClean(segss: seq<seq<string>>, first: nat)
    requires forall b, i :: 0 <= b < |segss| && 0 <= i < |segss[b]| ==> '\n' !in segss[b][i]
    ensures forall k :: 0 <= k < |DumpSegs(segss, first)| ==> '\n' !in DumpSegs(segss, first)[k].text
  {
    if segss != [] {
      var head, rest := Number(segss[0], first), segss[1..];
      assert forall b, i :: 0 <= b < |rest| && 0 <= i < |rest[b]| ==> '\n' !in rest[b][i] by {
        forall b, i | 0 <= b < |rest| && 0 <= i < |rest[b]|
          ensures '\n' !in rest[b][i]
        {
          assert rest[b] == segss[b + 1];
        }
      }
      DumpSegsClean(rest, Last(segss[0], first));
      var tail := DumpSegs(rest, Last(segss[0], first));
      var d: seq<Line> := head + tail;
      forall k | 0 <= k < |d|
        ensures '\n' !in d[k].text
      {
        if k < |head| {
          assert d[k] == head[k];
        } else {
          assert d[k] == tail[k - |head|];
        }
      }
    }
  }

  /** The printed output, split at its line breaks, is one formatted record per line and
      nothing after the final line break. */
  lemma {:induction false} DumpOutputLines(blobs: seq<string>, first: nat)
    ensures Split(Render(Dump(blobs, first))) == FormatAll(Dump(blobs, first)) + [""]
  {
    var segss := SplitAll(blobs);
    forall b, i | 0 <= b < |segss| && 0 <= i < |segss[b]|
      ensures '\n' !in segss[b][i]
    {
      SplitNoNewline(blobs[b], i);
    }
    DumpSegsClean(segss, first);
    RenderLines(Dump(blobs, first));
  }

  /** Blob b sits between the blobs before it and the blobs after it. */
  lemma {:induction false} ConcatAround(blobs: seq<string>, b: nat)
    requires b < |blobs|
    ensures Concat(blobs) == Concat(blobs[..b]) + (blobs[b] + Concat(blobs[b + 1..]))
  {
    assert blobs == blobs[..b] + ([blobs[b]] + blobs[b + 1..]);
    ConcatAppend(blobs[..b], [blobs[b]] + blobs[b + 1..]);
    assert ([blobs[b]] + blobs[b + 1..])[1..] == blobs[b + 1..];
  }

  /** Segment i of blob b is record |Dump(blobs[..b], first)| + i, numbered first plus the
      line breaks of the blobs before b plus i. */
  lemma {:induction false} DumpAt(blobs: seq<string>, first: nat, b: nat, i: nat)
    requires b < |blobs| && i < |Split(blobs[b])|
    ensures |Dump(blobs[..b], first)| + i < |Dump(blobs, first)|
    ensures Dump(blobs, first)[|Dump(blobs[..b], first)| + i]
      == Line(first + Newlines(Concat(blobs[..b])) + i, Split(blobs[b])[i])
  {
    DumpBlob(blobs, first, b);
    var pre, d := Dump(blobs[..b], first), Dump(blobs, first);
    assert d[|pre| + i] == d[|pre|..|pre| + |Split(blobs[b])|][i];
  }

  /** Segment i of blob b is record |Dump(blobs[..b], first)| + i. Its text occurs in the
      concatenation of the blobs at the place where blob b's segment i begins, and its
      number is first plus the count of line breaks before that place: the line on which
      the segment lies in the concatenation. */
  lemma {:induction false} DumpLocates(blobs: seq<string>, first: nat, b: nat, i: nat)
    requires b < |blobs| && i < |Split(blobs[b])|
    ensures var k, d, c := |Dump(blobs[..b], first)| + i, Dump(blobs, first), Concat(blobs);
      var o := |Concat(blobs[..b])| + SplitStarts(blobs[b], 0)[i];
      k < |d| && d[k].text == Split(blobs[b])[i] &&
      o + |d[k].text| <= |c| && c[o..o + |d[k].text|] == d[k].text &&
      d[k].number == first + Newlines(c[..o])
  {
    DumpAt(blobs, first, b, i);
    ConcatAround(blobs, b);
    SegmentInContext(Concat(blobs[..b]), blobs[b], Concat(blobs[b + 1..]), i);
  }

  /** The last record of a blob and the first record of the next one carry the same
      number: the counter does not move at a blob boundary. */
  lemma {:induction false} BoundaryShared(blobs: seq<string>, first: nat, b: nat)
    requires b + 1 < |blobs|
    ensures var k, d := |Dump(blobs[..b + 1], first)|, Dump(blobs, first);
      1 <= k < |d| && d[k - 1].number == d[k].number
  {
    var x, y := SplitAll(blobs[..b + 1]), SplitAll(blobs[b + 1..]);
    SplitAllSlices(blobs, b + 1);
    DumpSegsAppend(x, y, first);
    var x', s := SplitAll(blobs[..b]), Split(blobs[b]);
    assert x == x' + [s];
    DumpSegsAppend(x', [s], first);
    var n := LastAll(x', first);
    assert DumpSegs([s], n) == Number(s, n);
    assert LastAll([s], n) == Last(s, n);
    assert |y[0]| >= 1;
  }

  /** When every blob has at least one segment, neighbouring records carry the same number
      or numbers one apart. */
  lemma {:induction false} DumpSegsStep(segss: seq<seq<string>>, first: nat, k: nat)
    requires forall b :: 0 <= b < |segss| ==> |segss[b]| >= 1
    requires k + 1 < |DumpSegs(segss, first)|
    ensures var d := DumpSegs(segss, first); d[k].number <= d[k + 1].number <= d[k].number + 1
  {
    if segss != [] {
      var head, rest, n := Number(segss[0], first), segss[1..], Last(segss[0], first);
      var tail := DumpSegs(rest, n);
      var d: seq<Line> := head + tail;
      if k + 1 < |head| {
        assert d[k] == head[k] && d[k + 1] == head[k + 1];
      } else if k + 1 == |head| {
        assert rest != [];
        assert rest[0] == segss[1];
        var next := Number(rest[0], n);
        assert tail == next + DumpSegs(rest[1..], Last(rest[0], n));
        assert d[k] == head[k] && d[k + 1] == tail[0] == next[0];
      } else {
        assert forall b :: 0 <= b < |rest| ==> |rest[b]| >= 1 by {
          forall b | 0 <= b < |rest|
            ensures |rest[b]| >= 1
          {
            assert rest[b] == segss[b + 1];
          }
        }
        DumpSegsStep(rest, n, k - |head|);
        assert d[k] == tail[k - |head|] && d[k + 1] == tail[k + 1 - |head|];
      }
    }
  }

  /** The counter never goes back and moves by at most one from one record to the next:
      within a blob it moves on by one at each line break, and at a blob boundary it stays. */
  lemma {:induction false} DumpStep(blobs: seq<string>, first: nat, k: nat)
    requires k + 1 < |Dump(blobs, first)|
    ensures Dump(blobs, first)[k].number <= Dump(blobs, first)[k + 1].number <= Dump(blobs, first)[k].number + 1
  {
    var segss := SplitAll(blobs);
    forall b | 0 <= b < |segss|
      ensures |segss[b]| >= 1
    {
      SplitCount(blobs[b]);
    }
    DumpSegsStep(segss, first, k);
  }

  /** One step of the outer loop: the dump of srcs[b..] is blob b's records, then the rest. */
  lemma {:induction false} DumpSuffixStep(srcs: seq<string>, b: nat, line: nat)
    requires b < |srcs|
    ensures Dump(srcs[b..], line)
      == Number(Split(srcs[b]), line) + Dump(srcs[b + 1..], line + Newlines(srcs[b]))
  {
    var segss := SplitAll(srcs[b..]);
    SplitCount(srcs[b]);
    assert segss[0] == Split(srcs[b]);
    assert segss[1..] == SplitAll(srcs[b + 1..]);
  }

  lemma {:induction false} NewlinesPrefixStep(srcs: seq<string>, b: nat)
    requires b < |srcs|
    ensures Newlines(Concat(srcs[..b + 1])) == Newlines(Concat(srcs[..b])) + Newlines(srcs[b])
  {
    assert srcs[..b + 1] == srcs[..b] + [srcs[b]];
    ConcatAppend(srcs[..b], [srcs[b]]);
    assert Concat([srcs[b]]) == srcs[b];
    NewlinesAppend(Concat(srcs[..b]), srcs[b]);
  }

  /** One step of the inner loop at a line break: the segment from start is emitted. */
  lemma {:induction false} NumberSplitStep(s: string, start: nat, end: nat, line: nat)
    requires start <= end < |s| && NextNewline(s, start) == end
    ensures Number(SplitFrom(s, start), line)
      == [Line(line, s[start..end])] + Number(SplitFrom(s, end + 1), line + 1)
  {
    var rest := SplitFrom(s, end + 1);
    assert SplitFrom(s, start) == [s[start..end]] + rest;
    assert ([s[start..end]] + rest)[1..] == rest;
  }

  /** At the line break ending the segment from start, the counter moves on by one. */
  lemma {:induction false} NewlinesSplitStep(s: string, start: nat, end: nat)
    requires start <= end < |s| && NextNewline(s, start) == end
    ensures Newlines(s[..end + 1]) == Newlines(s[..start]) + 1
  {
    SegmentClean(s, start);
    NewlinesAcross(s, 0, end, end + 1);
    NewlinesSlices(s, 0, start, end);
    assert s[..end + 1] == s[0..end + 1] && s[..start] == s[0..start];
  }

  /** The final segment of a blob holds no line break. */
  lemma {:induction false} NewlinesSplitLast(s: string, start: nat)
    requires start <= |s| && NextNewline(s, start) == |s|
    ensures Newlines(s) == Newlines(s[..start])
  {
    SegmentClean(s, start);
    NewlinesSlices(s, 0, start, |s|);
    assert s[0..|s|] == s && s[..start] == s[0..start];
  }

  /** The end of a blob: the remaining text is its final segment. */
  lemma {:induction false} NumberSplitLast(s: string, start: nat, line: nat)
    requires start <= |s| && NextNewline(s, start) == |s|
    ensures Number(SplitFrom(s, start), line) == [Line(line, s[start..|s|])]
  {
    assert s[start..] == s[start..|s|];
  }

  /** A hint for the solver: re-associates a concatenation of three sequences. */
  lemma AppendAssoc<T>(a: seq<T>, b: seq<T>, c: seq<T>)
    ensures (a + b) + c == a + (b + c)
  {
  }

  /** The inner loop's invariant carries over a line break at end: the segment from start
      is emitted and the counter moves on by one. */
  lemma {:induction false} BlobNewlineStep(s: string, start: nat, end: nat, line: nat,
                                           lines: seq<Line>, goal: seq<Line>)
    requires start <= end < |s| && NextNewline(s, start) == end
    requires lines + Number(SplitFrom(s, start), line) == goal
    ensures (lines + [Line(line, s[start..end])]) + Number(SplitFrom(s, end + 1), line + 1) == goal
    ensures Newlines(s[..end + 1]) == Newlines(s[..start]) + 1
  {
    NumberSplitStep(s, start, end, line);
    NewlinesSplitStep(s, start, end);
    AppendAssoc(lines, [Line(line, s[start..end])], Number(SplitFrom(s, end + 1), line + 1));
  }

  /** printLine: prints s[start..end] behind the counter's current value, appending one
      record to those printed so far. */
  method PrintLine(s: string, start: nat, end: nat, line: nat, lines0: seq<Line>, out0: string)
    returns (lines: seq<Line>, out: string)
    requires start <= end <= |s|
    requires out0 == Render(lines0)
    ensures lines == lines0 + [Line(line, s[start..end])]
    ensures out == Render(lines)
  {
    var l := Line(line, s[start..end]);
    RenderSnoc(lines0, l);
    lines, out := lines0 + [l], out0 + FormatLine(l) + "\n";
  }

  /** The body of printCodeWithLines for one blob s: scans s with start and end, emits
      each segment ended by a line break with the shared counter and advances it, then
      emits the final segment. Appends to the records and the printed text so far. */
  method PrintBlob(s: string, line0: nat, lines0: seq<Line>, out0: string)
    returns (lines: seq<Line>, out: string, line: nat)
    requires out0 == Render(lines0)
    ensures lines == lines0 + Number(Split(s), line0)
    ensures out == Render(lines)
    ensures line == line0 + Newlines(s)
  {
    lines, out, line := lines0, out0, line0;
    var start, end := 0, 0;
    assert Split(s) == SplitFrom(s, start);
    while end < |s|
      invariant start <= end <= |s|
      invariant end <= NextNewline(s, start)
      invariant lines + Number(SplitFrom(s, start), line) == lines0 + Number(Split(s), line0)
      invariant line == line0 + Newlines(s[..start])
      invariant out == Render(lines)
    {
      if s[end] == '\n' {
        NextNewlineReached(s, start, end);
        BlobNewlineStep(s, start, end, line, lines, lines0 + Number(Split(s), line0));
        lines, out := PrintLine(s, start, end, line, lines, out);
        start, end := end + 1, end + 1;
        line := line + 1;
      } else {
        end := end + 1;
      }
    }
    NumberSplitLast(s, start, line);
    NewlinesSplitLast(s, start);
    lines, out := PrintLine(s, start, end, line, lines, out);
  }

  /** printCodeWithLines: prints each blob's segments, each prefixed by a counter that
      starts at 1, is shared by all blobs and moves on only at a line break. Returns the
      records, the text printed, and the counter's final value. */
  method PrintCodeWithLines(srcs: seq<CString>) returns (lines: seq<Line>, out: string, line: nat)
    ensures lines == Dump(srcs, 1)
    ensures out == Render(lines)
    ensures line == 1 + Newlines(Concat(srcs))
  {
    line := 1;
    lines, out := [], "";
    for b := 0 to |srcs|
      invariant lines + Dump(srcs[b..], line) == Dump(srcs, 1)
      invariant line == 1 + Newlines(Concat(srcs[..b]))
      invariant out == Render(lines)
    {
      DumpSuffixStep(srcs, b, line);
      NewlinesPrefixStep(srcs, b);
      AppendAssoc(lines, Number(Split(srcs[b]), line), Dump(srcs[b + 1..], line + Newlines(srcs[b])));
      lines, out, line := PrintBlob(srcs[b], line, lines, out);
    }
    assert srcs[..|srcs|] == srcs;
  }
}
