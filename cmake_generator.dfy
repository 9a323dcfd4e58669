/** `src/cmake_generator.py`: renders a build record as the text of a
    `CMakeLists.txt`. */
module CmakeGenerator {
  import opened Wrappers
  import opened Strings
  import opened BuildRecord

  const MinimumRequiredLine := "cmake_minimum_required(VERSION 3.10)\n"
  const ProjectLine := "project(MyProject)\n\n"
  const BlockEnd := ")\n\n"
  const AddExecutableLine := "add_executable(MyExecutable main.cpp)  # Replace with your source files\n"

  const IncludeOpening := "include_directories(\n"
  const CompileOpening := "add_compile_options(\n"
  const LinkOpening := "link_directories(\n"
  const LibrariesOpening := "target_link_libraries(MyExecutable\n"

  /** How an f-string shows a bucket entry: the string itself, or `None`. */
  function Show(v: Value): string {
    match v
    case Some(s) => s
    case None => "None"
  }

  /** The line a value gets inside a block. */
  function ValueLine(v: Value): string {
    "    " + Show(v) + "\n"
  }

  /** One line per value, in list order, each the value verbatim (no quoting
      or escaping) indented by four spaces. */
  function ValueLines(values: seq<Value>): seq<string> {
    seq(|values|, k requires 0 <= k < |values| => ValueLine(values[k]))
  }

  /** The block of a category: nothing when it is empty, else its opening line,
      one line per value and the closing line. */
  function Block(opening: string, values: seq<Value>): (block: seq<string>)
    ensures |block| == if values == [] then 0 else |values| + 2
  {
    if values == [] then [] else [opening] + ValueLines(values) + [BlockEnd]
  }

  /** The list `cmake_lines` that `generate_cmake_content` builds. */
  function CmakeLines(r: Record): (lines: seq<string>)
    ensures |lines| >= 3 && lines[0] == MinimumRequiredLine && lines[1] == ProjectLine
    ensures lines[|lines| - 1] == AddExecutableLine
  {
    [MinimumRequiredLine, ProjectLine]
    + Block(IncludeOpening, r.includeDirs)
    + Block(CompileOpening, r.compilerFlags)
    + Block(LinkOpening, r.linkerFlags)
    + Block(LibrariesOpening, r.libraries)
    + [AddExecutableLine]
  }

  /** `''.join(lines)`. */
  function Join(lines: seq<string>): string {
    if lines == [] then "" else lines[0] + Join(lines[1..])
  }

  /** The text `generate_cmake_content` returns for a record with contents `r`. */
  function Content(r: Record): string {
    Join(CmakeLines(r))
  }

  /** The value lines of one more value end with that value's line. */
  lemma {:induction false} ValueLinesSnoc(values: seq<Value>, k: nat)
    requires k < |values|
    ensures ValueLines(values[..k + 1]) == ValueLines(values[..k]) + [ValueLine(values[k])]
  {
    assert values[..k + 1][k] == values[k];
  }

  /** One `if build_data[...]:` section: appends the block of `values`. */
  method AppendBlock(cmakeLines: seq<string>, opening: string, values: seq<Value>) returns (result: seq<string>)
    ensures result == cmakeLines + Block(opening, values)
  {
    result := cmakeLines;
    if values != [] {
      result := result + [opening];
      for k := 0 to |values|
        invariant result == cmakeLines + [opening] + ValueLines(values[..k])
      {
        result := result + ["    " + Show(values[k]) + "\n"];
        ValueLinesSnoc(values, k);
      }
      assert values[..|values|] == values;
      result := result + [BlockEnd];
      assert Block(opening, values) == [opening] + ValueLines(values) + [BlockEnd];
    }
  }

  /** `generate_cmake_content(build_data)`. */
  method GenerateCmakeContent(data: BuildData) returns (content: string)
    ensures content == Content(data.Snapshot())
  {
    var cmakeLines := [MinimumRequiredLine, ProjectLine];
    cmakeLines := AppendBlock(cmakeLines, IncludeOpening, data.includeDirs);
    cmakeLines := AppendBlock(cmakeLines, CompileOpening, data.compilerFlags);
    cmakeLines := AppendBlock(cmakeLines, LinkOpening, data.linkerFlags);
    cmakeLines := AppendBlock(cmakeLines, LibrariesOpening, data.libraries);
    cmakeLines := cmakeLines + [AddExecutableLine];
    content := Join(cmakeLines);
  }

  /** Joining two lists of lines is joining each and concatenating. */
  lemma {:induction false} JoinAppend(a: seq<string>, b: seq<string>)
    decreases |a|
    ensures Join(a + b) == Join(a) + Join(b)
  {
    if a != [] {
      assert (a + b)[0] == a[0] && (a + b)[1..] == a[1..] + b;
      JoinAppend(a[1..], b);
    } else {
      assert a + b == b;
    }
  }

  /** The text of a block: nothing for an empty category, else the opening
      line, the value lines and `)` followed by a blank line. */
  lemma {:induction false} BlockText(opening: string, values: seq<Value>)
    ensures Join(Block(opening, values)) == if values == [] then "" else opening + Join(ValueLines(values)) + BlockEnd
  {
    if values != [] {
      JoinAppend([opening] + ValueLines(values), [BlockEnd]);
      JoinAppend([opening], ValueLines(values));
      assert Join([BlockEnd]) == BlockEnd;
      assert Join([opening]) == opening;
    }
  }

  /** The document is the header, then the blocks in the fixed order
      `include_directories`, `add_compile_options`, `link_directories`,
      `target_link_libraries`, then the `add_executable` line. */
  lemma {:induction false} ContentLayout(r: Record)
    ensures Content(r) == MinimumRequiredLine + ProjectLine
                          + Join(Block(IncludeOpening, r.includeDirs))
                          + Join(Block(CompileOpening, r.compilerFlags))
                          + Join(Block(LinkOpening, r.linkerFlags))
                          + Join(Block(LibrariesOpening, r.libraries))
                          + AddExecutableLine
  {
    var head := [MinimumRequiredLine, ProjectLine];
    var b1, b2 := Block(IncludeOpening, r.includeDirs), Block(CompileOpening, r.compilerFlags);
    var b3, b4 := Block(LinkOpening, r.linkerFlags), Block(LibrariesOpening, r.libraries);
    var tail := [AddExecutableLine];
    JoinAppend(head + b1 + b2 + b3 + b4, tail);
    JoinAppend(head + b1 + b2 + b3, b4);
    JoinAppend(head + b1 + b2, b3);
    JoinAppend(head + b1, b2);
    JoinAppend(head, b1);
    assert Join(head) == MinimumRequiredLine + ProjectLine by {
      assert head[1..][1..] == [];
    }
    assert Join(tail) == AddExecutableLine;
  }

  /** The text always starts with the two header lines. */
  lemma {:induction false} ContentStartsWithHeader(r: Record)
    ensures StartsWith(Content(r), MinimumRequiredLine + ProjectLine)
  {
    var lines := CmakeLines(r);
    var header, rest := MinimumRequiredLine + ProjectLine, Join(lines[2..]);
    assert lines[1..][0] == ProjectLine && lines[1..][1..] == lines[2..];
    assert Join(lines[1..]) == ProjectLine + rest;
    assert Content(r) == MinimumRequiredLine + Join(lines[1..]);
    assert Content(r) == header + rest;
    assert (header + rest)[..|header|] == header;
  }

  /** The text always ends with the fixed `add_executable` line, whatever the
      record's sources. */
  lemma {:induction false} ContentEndsWithAddExecutable(r: Record)
    ensures EndsWith(Content(r), AddExecutableLine)
  {
    ContentLayout(r);
    var c := Content(r);
    assert c[|c| - |AddExecutableLine|..] == AddExecutableLine;
  }

  /** The text is exactly the header and the `add_executable` line if and only
      if the four rendered categories are all empty. */
  lemma {:induction false} BareDocumentIffNothingRendered(r: Record)
    ensures Content(r) == MinimumRequiredLine + ProjectLine + AddExecutableLine
            <==> r.includeDirs == [] && r.compilerFlags == [] && r.linkerFlags == [] && r.libraries == []
  {
    ContentLayout(r);
    BlockText(IncludeOpening, r.includeDirs);
    BlockText(CompileOpening, r.compilerFlags);
    BlockText(LinkOpening, r.linkerFlags);
    BlockText(LibrariesOpening, r.libraries);
  }

  /** Only `include_dirs`, `compiler_flags`, `linker_flags` and `libraries`
      are rendered: `library_dirs`, `sources`, `others`, `debug_flags` and
      `output` never affect the text. */
  lemma {:induction false} ContentDependsOnlyOnRenderedKeys(r1: Record, r2: Record)
    requires r1.includeDirs == r2.includeDirs && r1.compilerFlags == r2.compilerFlags
    requires r1.linkerFlags == r2.linkerFlags && r1.libraries == r2.libraries
    ensures Content(r1) == Content(r2)
  {
  }

  /** The number of lines of `lines` equal to `x`. */
  function Count(lines: seq<string>, x: string): nat {
    if lines == [] then 0 else (if lines[0] == x then 1 else 0) + Count(lines[1..], x)
  }

  lemma {:induction false} CountAppend(a: seq<string>, b: seq<string>, x: string)
    decreases |a|
    ensures Count(a + b, x) == Count(a, x) + Count(b, x)
  {
    if a != [] {
      assert (a + b)[0] == a[0] && (a + b)[1..] == a[1..] + b;
      CountAppend(a[1..], b, x);
    } else {
      assert a + b == b;
    }
  }

  /** A non-empty block closes once, an empty one not at all: no value line
      and no opening line is the closing line. */
  lemma {:induction false} BlockCloses(opening: string, values: seq<Value>)
    requires opening != BlockEnd
    ensures Count(Block(opening, values), BlockEnd) == if values == [] then 0 else 1
  {
    if values != [] {
      var lines := ValueLines(values);
      assert Count(lines, BlockEnd) == 0 by {
        ValueLinesNeverClose(lines, values);
      }
      CountAppend([opening] + lines, [BlockEnd], BlockEnd);
      CountAppend([opening], lines, BlockEnd);
    }
  }

  lemma {:induction false} ValueLinesNeverClose(lines: seq<string>, values: seq<Value>)
    requires |lines| == |values| && forall k :: 0 <= k < |lines| ==> lines[k] == "    " + Show(values[k]) + "\n"
    decreases |lines|
    ensures Count(lines, BlockEnd) == 0
  {
    if lines != [] {
      assert lines[0][0] == ' ' != BlockEnd[0];
      ValueLinesNeverClose(lines[1..], values[1..]);
    }
  }

  /** The number of rendered categories that are not empty. */
  function NonEmptyCategories(r: Record): nat {
    (if r.includeDirs != [] then 1 else 0) + (if r.compilerFlags != [] then 1 else 0)
    + (if r.linkerFlags != [] then 1 else 0) + (if r.libraries != [] then 1 else 0)
  }

  /** A record with N non-empty rendered categories gives exactly N blocks. */
  lemma {:induction false} BlockCountMatchesCategories(r: Record)
    ensures Count(CmakeLines(r), BlockEnd) == NonEmptyCategories(r)
  {
    var head := [MinimumRequiredLine, ProjectLine];
    var b1, b2 := Block(IncludeOpening, r.includeDirs), Block(CompileOpening, r.compilerFlags);
    var b3, b4 := Block(LinkOpening, r.linkerFlags), Block(LibrariesOpening, r.libraries);
    var tail := [AddExecutableLine];
    CountAppend(head + b1 + b2 + b3 + b4, tail, BlockEnd);
    CountAppend(head + b1 + b2 + b3, b4, BlockEnd);
    CountAppend(head + b1 + b2, b3, BlockEnd);
    CountAppend(head + b1, b2, BlockEnd);
    CountAppend(head, b1, BlockEnd);
    BlockCloses(IncludeOpening, r.includeDirs);
    BlockCloses(CompileOpening, r.compilerFlags);
    BlockCloses(LinkOpening, r.linkerFlags);
    BlockCloses(LibrariesOpening, r.libraries);
    assert Count(head, BlockEnd) == 0 by {
      assert head[1..][1..] == [];
    }
    assert Count(tail, BlockEnd) == 0;
  }
}
