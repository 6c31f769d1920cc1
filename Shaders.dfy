/** Shader diagnostics: stage labels, the shared header, and the header-first dump. */
module Shaders {
  import opened Wrappers
  import opened Text
  import opened Format
  import opened SourceDump

  /** An OpenGL enumerant: a 32-bit unsigned value. */
  type GLenum = x: int | 0 <= x < 0x1_0000_0000

  /** The two stage kinds, by their values in the OpenGL ES 3.0 headers. */
  const GL_FRAGMENT_SHADER: GLenum := 0x8B30
  const GL_VERTEX_SHADER: GLenum := 0x8B31

  /** The stage kinds shaderTypeToStr has a name for. */
  predicate IsStageKind(t: GLenum)
  {
    t == GL_VERTEX_SHADER || t == GL_FRAGMENT_SHADER
  }

  /** shaderTypeToStr: the short name of a stage kind. Every other kind fails the
      assertion on the default branch, so it is excluded by the precondition. */
  function ShaderTypeToStr(t: GLenum): (name: string)
    requires IsStageKind(t)
    ensures name == "VERT" <==> t == GL_VERTEX_SHADER
    ensures name == "FRAG" <==> t == GL_FRAGMENT_SHADER
  {
    if t == GL_VERTEX_SHADER then "VERT" else "FRAG"
  }

  /** The stage kind a name stands for, if any: the inverse of ShaderTypeToStr. */
  function StageOfLabel(name: string): (r: Option<GLenum>)
    ensures r.Some? ==> IsStageKind(r.value) && ShaderTypeToStr(r.value) == name
    ensures r.None? ==> name != "VERT" && name != "FRAG"
  {
    if name == "VERT" then Some(GL_VERTEX_SHADER)
    else if name == "FRAG" then Some(GL_FRAGMENT_SHADER)
    else None
  }

  /** Reading a name back gives the stage kind it was produced from. */
  lemma StageLabelRoundTrip(t: GLenum)
    requires IsStageKind(t)
    ensures StageOfLabel(ShaderTypeToStr(t)) == Some(t)
  {
  }

  /** The lines of the header as written in the source, and the empty segment after the
      line break that ends the third. */
  const HeaderLines: seq<string> := ["#version 300 es", "#define PI 3.1415926535897932", "precision highp float;", ""]

  /** The text put in front of every stage's source (shader_srcs::header): a raw string
      of three lines, each ended by a line break. */
  const Header: string := HeaderLines[0] + ("\n" + (HeaderLines[1] + ("\n" + (HeaderLines[2] + "\n"))))

  /** The header holds no NUL, so it is a whole C string. */
  lemma HeaderIsCString()
    ensures '\0' !in Header
  {
    assert '\0' !in HeaderLines[0];
    assert '\0' !in HeaderLines[1];
    assert '\0' !in HeaderLines[2];
  }

  /** The text the compiler receives for a stage: the header, then the stage's own source. */
  function SubmittedSource(src: CString): string
  {
    Header + src
  }

  /** The header splits into its three lines and a final empty segment. */
  lemma {:induction false} HeaderSplit()
    ensures Split(Header) == HeaderLines
    ensures Newlines(Header) == 3
  {
    assert Join(HeaderLines) == Header;
    SplitJoin(HeaderLines);
    SplitCount(Header);
  }

  /** The header's records: its segments numbered 1 to 4. */
  const HeaderRecords: seq<Line> := [Line(1, HeaderLines[0]), Line(2, HeaderLines[1]), Line(3, HeaderLines[2]), Line(4, HeaderLines[3])]

  /** The dump of the header and a stage source is the header numbered from 1, then the
      source's segments numbered from 4: the body's first line shares number 4 with the
      header's empty last segment. */
  lemma {:induction false} DumpWithHeader(src: CString)
    ensures Dump([Header, src], 1) == HeaderRecords + Number(Split(src), 4)
  {
    HeaderSplit();
    var segss := SplitAll([Header, src]);
    assert segss[0] == HeaderLines;
    assert segss[1..] == [Split(src)];
    assert Last(HeaderLines, 1) == 4;
    assert DumpSegs([Split(src)], 4) == Number(Split(src), 4) + DumpSegs([], 4);
    assert Number(HeaderLines, 1) == HeaderRecords;
  }

  /** Segment i of a stage source is printed with the number of the line it lies on in the
      submitted source: 1 plus the line breaks before it there. */
  lemma {:induction false} BodyLineNumbers(src: CString, i: nat)
    requires i < |Split(src)|
    ensures var d, c, o := Dump([Header, src], 1), SubmittedSource(src), |Header| + SplitStarts(src, 0)[i];
      4 + i < |d| && d[4 + i].text == Split(src)[i] &&
      o + |Split(src)[i]| <= |c| && c[o..o + |Split(src)[i]|] == Split(src)[i] &&
      d[4 + i].number == 1 + Newlines(c[..o])
  {
    HeaderSplit();
    DumpWithHeader(src);
    SegmentInContext(Header, src, "", i);
    assert src + "" == src;
  }

  /** printShaderCodeWithHeader: dumps the header and then the stage source, in the order
      they are submitted for compilation. */
  method PrintShaderCodeWithHeader(src: CString) returns (lines: seq<Line>, out: string)
    ensures lines == HeaderRecords + Number(Split(src), 4)
    ensures out == Render(lines)
  {
    HeaderIsCString();
    var last;
    lines, out, last := PrintCodeWithLines([Header, src]);
    DumpWithHeader(src);
  }
}
