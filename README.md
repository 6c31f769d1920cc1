# Line-numbered shader source dump

This project models the shader-diagnostics helpers of a small OpenGL ES 3.0 demo (`main.cpp`).
When a shader stage fails to compile or a program fails to link, the demo prints the stage's
source with line numbers. It prints the shared header first and then the stage body, the same
order in which the two are submitted to the compiler. One counter numbers the lines of both.
It starts at 1, is never reset between blobs, and moves on only at a line break. So every
printed number is the line on which that segment lies in the text the compiler sees. Beside
the dump sits a small table that maps a stage kind to its label ("VERT" or "FRAG").

Modules:

- `Wrappers`: `Option`.
- `Text`:
  - `CString` is a string with no NUL; reaching the NUL terminator is modelled as reaching the end of the sequence.
  - `Newlines` counts line breaks.
  - `NextNewline` finds the end of a segment.
  - `Split`, `SplitFrom` and `SplitStarts` give the segments between line breaks and their offsets.
  - `Join` is the inverse of `Split`.
- `Format`: the `Line` record (number, text) and its `printf("%4d| %.*s\n")` rendering.
  - `Decimal` and `PadLeft` give the number right-aligned in a field at least 4 wide.
  - `FormatLine` and `Render` give the printed output.
  - `ParseFormatted` reads a printed line back.
- `SourceDump` holds `printCodeWithLines` as imperative code (`PrintCodeWithLines`, with `PrintBlob` for the body of its `for` loop and `PrintLine` for the `printLine` lambda). It also holds the reference definition `Dump`, which numbers the segments of each blob carrying the counter over from blob to blob, and the lemmas about it.
- `Shaders`:
  - `shaderTypeToStr` and its inverse.
  - The shared header.
  - `printShaderCodeWithHeader`.

`printf` is replaced by returned values:
- The methods return the records printed, as `seq<Line>`.
- They return the exact text written to standard output.
- `PrintCodeWithLines` also returns the counter's final value.

Behaviour worth knowing, as the code has it:

- The header ends with a line break, so its last segment is empty and is printed as `   4| `. The body's first segment is then numbered 4 as well. The counter is non-decreasing across blobs rather than strictly increasing: from one record to the next it stays or moves on by one (`SourceDump.DumpStep`). Every number still equals the compiler's line number for that segment (`Shaders.BodyLineNumbers`).
- The `%4d` field is a minimum width: a number of five or more digits takes more columns (`Format.PadLeft`).
- A blob with k line breaks prints k + 1 lines, including the possibly empty segment after its last line break.

## Model

| member | source | states |
|---|---|---|
| SourceDump.PrintCodeWithLines | main.cpp:83-103 | the records printed are exactly `Dump(srcs, 1)`, the text printed is their rendering, and the counter ends at 1 plus the number of line breaks in all the blobs together |
| SourceDump.PrintBlob | main.cpp:89-101 | scanning one blob appends its segments numbered consecutively from the counter's value on entry, keeps the printed text equal to the rendering of the records, and advances the counter by the blob's line-break count |
| SourceDump.PrintLine | main.cpp:91 | one call appends the record (counter, `s[start..end]`) and its printed line to the output so far |
| SourceDump.DumpBlob | main.cpp:85-88 | the records of blob b are its segments numbered from first plus the line breaks of all blobs before b: the counter is shared and never reset |
| SourceDump.DumpLocates | main.cpp:85-101 | the record for segment i of blob b carries that segment's text, the text occurs in the concatenation of the blobs at the segment's place, and its number is first plus the line breaks before that place |
| SourceDump.BoundaryShared | main.cpp:96-101 | the last record of a blob and the first record of the next carry the same number |
| SourceDump.DumpStep | main.cpp:85-101 | neighbouring records carry the same number or numbers one apart: the counter never goes back and moves by at most one |
| SourceDump.DumpSegsStep | main.cpp:85-101 | when every blob has at least one segment, neighbouring records' numbers are equal or one apart |
| SourceDump.LastAllCounts | main.cpp:85-101 | after all blobs the counter equals its start plus the total number of line breaks |
| SourceDump.DumpLength | main.cpp:92-101 | the dump has one record per line break plus one per blob |
| SourceDump.DumpOutputLines | main.cpp:91-101 | the printed output, split at its line breaks, is one formatted record per line with nothing after the last line break |
| SourceDump.DumpSegsClean | main.cpp:92-99 | no record's text contains a line break when no segment does |
| SourceDump.NumberSplitStep | main.cpp:93-97 | at a line break the segment from start is emitted with the current number and the rest follow with the next number |
| SourceDump.NumberSplitLast | main.cpp:101 | when no line break remains, the text from start is the blob's last segment |
| SourceDump.BlobNewlineStep | main.cpp:93-97 | emitting a segment at a line break keeps the scan's invariant and moves the count of line breaks before start on by one |
| Text.SplitCount | main.cpp:92-101 | a text with k line breaks has exactly k + 1 segments |
| Text.SplitNoNewline | main.cpp:92-99 | no segment contains a line break |
| Text.JoinSplit | main.cpp:89-99 | joining a text's segments with line breaks gives the text back |
| Text.SplitJoin | main.cpp:89-99 | splitting a join of line-free parts gives the parts back |
| Text.SplitFromAt | main.cpp:89-99 | segment i lies at its offset in the text, holds no line break, ends at a line break or at the end, and follows exactly i line breaks |
| Text.SegmentInContext | main.cpp:85-101 | a blob's segment, with the blob placed inside a longer text, sits after the line breaks before the blob plus those of the blob before the segment |
| Text.NextNewlineReached | main.cpp:92-93 | the first line break the scan meets is the one that ends the current segment |
| Text.NextNewline | main.cpp:92-99 | the scan from i stops within the text, and where it stops before the end there is a line break |
| Text.SegmentClean | main.cpp:92-99 | the text the scan passes over from i to where it stops holds no line break, so the stop is the first line break |
| Format.FormatLineRoundTrip | main.cpp:91 | the printed form of a record determines its number and its text |
| Format.PadLeft | main.cpp:91 | the number is right-aligned in a field at least 4 wide, padded with spaces |
| Format.DecimalRoundTrip | main.cpp:91 | the decimal digits printed for a number read back as that number |
| Format.Decimal | main.cpp:91 | a number prints as at least one decimal digit, with no leading zero |
| Format.RenderSnoc | main.cpp:91 | printing one more record appends its formatted line and a line break |
| Format.RenderLines | main.cpp:91 | rendered records with line-free texts split into exactly the formatted lines and a final empty segment |
| Format.FormatLineNoNewline | main.cpp:91 | a record with a line-free text prints as a single line |
| Shaders.ShaderTypeToStr | main.cpp:111-123 | the vertex kind maps to "VERT" and only it, and the fragment kind to "FRAG" and only it; other kinds are excluded because the default branch asserts |
| Shaders.StageOfLabel | main.cpp:111-123 | a label read back names a stage kind that maps to it, and no other string names a kind |
| Shaders.StageLabelRoundTrip | main.cpp:111-123 | reading a stage kind's label back gives the kind |
| Shaders.HeaderSplit | main.cpp:25-29 | the header splits into its three lines and an empty last segment, so it has 3 line breaks |
| Shaders.HeaderIsCString | main.cpp:25-29 | the header holds no NUL |
| Shaders.DumpWithHeader | main.cpp:105-109 | the dump of header and body is the header numbered 1 to 4 followed by the body's segments numbered from 4 |
| Shaders.BodyLineNumbers | main.cpp:129-132 | the body's segment i is printed with number 4 + i, which is 1 plus the line breaks before that segment in the header-then-body text submitted to the compiler |
| Shaders.PrintShaderCodeWithHeader | main.cpp:105-109 | prints the header's records 1 to 4 and then the body's segments numbered from 4, and the text printed is their rendering |

## Left out

- All OpenGL calls: shader and program creation, compilation, attach, detach, link and delete in `easyCreateShader` and both `easyCreateShaderProg` overloads. These are foreign calls with state the model cannot see. Their count checks (`infos.size() == shaders.size()`, fewer than `MAX_SHADERS` = 8 shaders, so at most 7) are not modelled because nothing here calls those functions.
- `checkCompileErrors` and `checkLinkErrors`: they only read GL status and the info log into the global 16 KiB buffer.
- Window, loader, Emscripten main loop, render loop, vertex and texture data: I/O and GPU state with no logic of the dump.
- `printf` output: modelled as a returned string and record list instead of a write to standard output.
- `assert(false)` aborts: `shaderTypeToStr`'s default branch is a precondition. The abort after a failed compile or link is not modelled.
- Shaders.ShaderTypeToStr: does not model a build with assertions disabled, in which an unknown kind returns the empty string.
- SourceDump.PrintCodeWithLines: the counter is an unbounded `nat`, so the overflow of the source's `int` counter after more than 2^31 - 1 lines is not modelled.
- SourceDump.PrintBlob: the scan positions `start` and `end` are `int` in the source too, and `end++` would overflow on a blob of 2^31 characters or more with no line break. The model's `nat` positions leave that overflow out.
- SourceDump.PrintBlob: the source scans a NUL-terminated buffer and stops at the NUL. The model's blob is the characters before the terminator, and the loop stops at the end of the sequence. `PrintCodeWithLines` takes its blobs as `CString`, which holds no NUL.
- The `%.*s` precision is `end - start` as an `int`. The model takes the slice directly, since it never exceeds the blob's length.
