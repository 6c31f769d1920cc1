/** One output record of the source dump and its printf "%4d| %.*s\n" rendering. */
module Format {
  import opened Wrappers
  import opened Text

  /** One numbered segment of source text. */
  datatype Line = Line(number: nat, text: string)

  predicate IsDigit(c: char)
  {
    '0' <= c <= '9'
  }

  function DigitChar(d: nat): (c: char)
    requires d < 10
    ensures IsDigit(c)
  {
    ('0' as int + d) as char
  }

  function DigitValue(c: char): (d: nat)
    requires IsDigit(c)
    ensures d < 10
  {
    c as int - '0' as int
  }

  /** The decimal digits printf writes for %d of a non-negative value. */
  function Decimal(n: nat): (r: string)
    ensures |r| >= 1
    ensures forall i :: 0 <= i < |r| ==> IsDigit(r[i])
    ensures |r| == 1 || r[0] != '0'
    decreases n
  {
    if n < 10 then [DigitChar(n)] else Decimal(n / 10) + [DigitChar(n % 10)]
  }

  /** Reads a string of decimal digits back as a number. */
  function ParseDecimal(s: string): nat
    requires forall i :: 0 <= i < |s| ==> IsDigit(s[i])
  {
    if s == [] then 0 else 10 * ParseDecimal(s[..|s| - 1]) + DigitValue(s[|s| - 1])
  }

  lemma {:induction false} DecimalRoundTrip(n: nat)
    ensures ParseDecimal(Decimal(n)) == n
    decreases n
  {
    var r := Decimal(n);
    if n >= 10 {
      DecimalRoundTrip(n / 10);
      assert r[..|r| - 1] == Decimal(n / 10);
    }
  }

  function Spaces(k: nat): (r: string)
    ensures |r| == k
    ensures forall i :: 0 <= i < k ==> r[i] == ' '
  {
    seq(k, _ => ' ')
  }

  /** s right-aligned in a field at least width characters wide (the "%4d" padding). */
  function PadLeft(s: string, width: nat): (r: string)
    ensures |r| == if |s| < width then width else |s|
    ensures r[|r| - |s|..] == s
    ensures forall i :: 0 <= i < |r| - |s| ==> r[i] == ' '
  {
    Spaces(if |s| < width then width - |s| else 0) + s
  }

  /** The text one record prints, without the trailing line break. */
  function FormatLine(l: Line): string
  {
    PadLeft(Decimal(l.number), 4) + ("| " + l.text)
  }

  /** Everything the dump prints for the records, each followed by a line break. */
  function Render(lines: seq<Line>): string
  {
    if lines == [] then "" else FormatLine(lines[0]) + ("\n" + Render(lines[1..]))
  }

  lemma {:induction false} RenderSnoc(lines: seq<Line>, l: Line)
    ensures Render(lines + [l]) == Render(lines) + FormatLine(l) + "\n"
  {
    if lines != [] {
      assert (lines + [l])[1..] == lines[1..] + [l];
      RenderSnoc(lines[1..], l);
    } else {
      assert lines + [l] == [l];
    }
  }

  /** r without its leading spaces. */
  function DropSpaces(r: string): (t: string)
    ensures |t| <= |r|
  {
    if r != [] && r[0] == ' ' then DropSpaces(r[1..]) else r
  }

  /** The leading run of digits of r, and what follows it. */
  function SpanDigits(r: string): (p: (string, string))
    ensures p.0 + p.1 == r
    ensures forall k :: 0 <= k < |p.0| ==> IsDigit(p.0[k])
  {
    if r != [] && IsDigit(r[0]) then
      var (ds, rest) := SpanDigits(r[1..]);
      ([r[0]] + ds, rest)
    else ([], r)
  }

  /** Reads one printed record back: padding, the number, "| ", then the text. */
  function ParseFormatted(r: string): Option<Line>
  {
    var (ds, rest) := SpanDigits(DropSpaces(r));
    if |ds| >= 1 && |rest| >= 2 && rest[0] == '|' && rest[1] == ' '
    then Some(Line(ParseDecimal(ds), rest[2..]))
    else None
  }

  lemma {:induction false} DropSpacesOver(pad: string, t: string)
    requires forall k :: 0 <= k < |pad| ==> pad[k] == ' '
    requires t == [] || t[0] != ' '
    ensures DropSpaces(pad + t) == t
  {
    if pad == [] {
      assert pad + t == t;
    } else {
      assert (pad + t)[1..] == pad[1..] + t;
      DropSpacesOver(pad[1..], t);
    }
  }

  lemma {:induction false} SpanDigitsOver(d: string, t: string)
    requires forall k :: 0 <= k < |d| ==> IsDigit(d[k])
    requires t == [] || !IsDigit(t[0])
    ensures SpanDigits(d + t) == (d, t)
  {
    if d == [] {
      assert d + t == t;
    } else {
      assert (d + t)[1..] == d[1..] + t;
      SpanDigitsOver(d[1..], t);
      assert [d[0]] + d[1..] == d;
    }
  }

  /** Padding, a digit string and "| " in front of a text parse back to the number and the text. */
  lemma {:induction false} ParsePadded(pad: string, d: string, text: string)
    requires forall k :: 0 <= k < |pad| ==> pad[k] == ' '
    requires |d| >= 1 && forall k :: 0 <= k < |d| ==> IsDigit(d[k])
    ensures ParseFormatted(pad + (d + ("| " + text))) == Some(Line(ParseDecimal(d), text))
  {
    var tail := "| " + text;
    DropSpacesOver(pad, d + tail);
    SpanDigitsOver(d, tail);
    assert tail[2..] == text;
    assert tail[0] == '|';
  }

  /** The printed form of a record determines the record. */
  lemma {:induction false} FormatLineRoundTrip(l: Line)
    ensures ParseFormatted(FormatLine(l)) == Some(l)
  {
    var d := Decimal(l.number);
    var pad := Spaces(if |d| < 4 then 4 - |d| else 0);
    assert FormatLine(l) == pad + (d + ("| " + l.text));
    ParsePadded(pad, d, l.text);
    DecimalRoundTrip(l.number);
  }

  /** A record whose text has no line break prints as exactly one output line. */
  lemma {:induction false} FormatLineNoNewline(l: Line)
    requires '\n' !in l.text
    ensures '\n' !in FormatLine(l)
  {
    var d := Decimal(l.number);
    var m := if |d| < 4 then 4 - |d| else 0;
    var r := FormatLine(l);
    assert r == Spaces(m) + d + "| " + l.text;
    forall k | 0 <= k < |r|
      ensures r[k] != '\n'
    {
      if k < m {
      } else if k < m + |d| {
        assert r[k] == d[k - m];
      } else if k < m + |d| + 2 {
      } else {
        assert r[k] == l.text[k - m - |d| - 2];
      }
    }
  }

  function FormatAll(lines: seq<Line>): (r: seq<string>)
    ensures |r| == |lines|
    ensures forall i :: 0 <= i < |lines| ==> r[i] == FormatLine(lines[i])
  {
    if lines == [] then [] else [FormatLine(lines[0])] + FormatAll(lines[1..])
  }

  lemma {:induction false} RenderIsJoin(lines: seq<Line>)
    ensures Render(lines) == Join(FormatAll(lines) + [""])
  {
    if lines != [] {
      RenderIsJoin(lines[1..]);
      assert (FormatAll(lines) + [""])[1..] == FormatAll(lines[1..]) + [""];
    }
  }

  /** Split into lines, the printed output is one formatted line per record and
      nothing after the last line break. */
  lemma {:induction false} RenderLines(lines: seq<Line>)
    requires forall i :: 0 <= i < |lines| ==> '\n' !in lines[i].text
    ensures Split(Render(lines)) == FormatAll(lines) + [""]
  {
    RenderIsJoin(lines);
    var parts := FormatAll(lines) + [""];
    forall k | 0 <= k < |parts|
      ensures '\n' !in parts[k]
    {
      if k < |lines| {
        FormatLineNoNewline(lines[k]);
      }
    }
    SplitJoin(parts);
  }
}
