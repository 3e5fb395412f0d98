/**
 * `countLinesOfCode`: the number of relevant lines of a solution, found by a
 * line-by-line scan with one flag that says whether the scan is inside a
 * block comment (C and C++, from a slash-star line to a star-slash one) or a
 * docstring (Python triple quotes).
 */
module LineCount {
  import opened Strings

  /** What the scan carries from line to line: the lines counted and `inBlockComment`. */
  datatype ScanState = ScanState(count: nat, inBlock: bool)

  const Start: ScanState := ScanState(0, false)

  const TripleDouble: string := "\"\"\""
  const TripleSingle: string := "'''"

  predicate IsCFamily(language: string)
  {
    language == "c" || language == "cpp"
  }

  predicate OpensDocstring(t: string)
  {
    StartsWith(t, TripleDouble) || StartsWith(t, TripleSingle)
  }

  /** A docstring line longer than the quotes that also ends with triple quotes. */
  predicate ClosesOnSameLine(t: string)
  {
    |t| > 3 && (EndsWith(t, TripleDouble) || EndsWith(t, TripleSingle))
  }

  /** What one line does to the scan. */
  function Step(st: ScanState, line: string, language: string): (r: ScanState)
    ensures st.count <= r.count <= st.count + 1
  {
    var t := Trim(line);
    if t == [] then st
    else if IsCFamily(language) && st.inBlock then ScanState(st.count, !Contains(t, "*/"))
    else if IsCFamily(language) && StartsWith(t, "/*") then ScanState(st.count, !Contains(t, "*/"))
    else if IsCFamily(language) && StartsWith(t, "//") then st
    else if language == "python" && StartsWith(t, "#") then st
    else if language == "python" && OpensDocstring(t) then
      (if ClosesOnSameLine(t) then st else ScanState(st.count, !st.inBlock))
    else if language == "python" && st.inBlock then st
    else ScanState(st.count + 1, st.inBlock)
  }

  /** The scan of `lines` from state `st`. */
  function Run(st: ScanState, lines: seq<string>, language: string): (r: ScanState)
    ensures st.count <= r.count
    decreases |lines|
  {
    if lines == [] then st else Run(Step(st, lines[0], language), lines[1..], language)
  }

  /** The relevant lines of `code`, split at "\n". */
  function LinesOfCode(code: string, language: string): (r: nat)
    ensures r <= |Split(code, '\n')|
  {
    RunBound(Start, Split(code, '\n'), language);
    Run(Start, Split(code, '\n'), language).count
  }

  /** The number of lines that are not whitespace only. */
  function NonBlank(lines: seq<string>): (r: nat)
    ensures r <= |lines|
  {
    if lines == [] then 0 else (if Trim(lines[0]) == [] then 0 else 1) + NonBlank(lines[1..])
  }

  /** `countLinesOfCode(code, language)`, on the decoded text of the buffer. */
  method CountLinesOfCode(code: string, language: string) returns (count: nat)
    ensures count == LinesOfCode(code, language)
  {
    var lines := Split(code, '\n');
    count := 0;
    var inBlock := false;
    for i := 0 to |lines|
      invariant Run(ScanState(count, inBlock), lines[i..], language) == Run(Start, lines, language)
    {
      ghost var st := ScanState(count, inBlock);
      assert lines[i..][1..] == lines[i + 1..];
      assert Run(st, lines[i..], language) == Run(Step(st, lines[i], language), lines[i + 1..], language);
      var trimmed := Trim(lines[i]);
      if trimmed == [] {
        continue;
      }
      if language == "c" || language == "cpp" {
        if inBlock {
          if Contains(trimmed, "*/") {
            inBlock := false;
          }
          continue;
        }
        if StartsWith(trimmed, "/*") {
          if !Contains(trimmed, "*/") {
            inBlock := true;
          }
          continue;
        }
        if StartsWith(trimmed, "//") {
          continue;
        }
      }
      if language == "python" {
        if StartsWith(trimmed, "#") {
          continue;
        }
        if StartsWith(trimmed, TripleDouble) || StartsWith(trimmed, TripleSingle) {
          if |trimmed| > 3 && (EndsWith(trimmed, TripleDouble) || EndsWith(trimmed, TripleSingle)) {
            continue;
          }
          inBlock := !inBlock;
          continue;
        }
        if inBlock {
          continue;
        }
      }
      count := count + 1;
    }
    assert lines[|lines|..] == [];
  }

  // ---------------------------------------------------------------- properties

  /** Scanning two runs of lines one after the other is scanning their concatenation. */
  lemma {:induction false} RunConcat(st: ScanState, a: seq<string>, b: seq<string>, language: string)
    ensures Run(st, a + b, language) == Run(Run(st, a, language), b, language)
    decreases |a|
  {
    if a == [] {
      assert a + b == b;
    } else {
      assert (a + b)[1..] == a[1..] + b;
      RunConcat(Step(st, a[0], language), a[1..], b, language);
    }
  }

  /** A whitespace-only line is skipped, whatever the language and the state. */
  lemma BlankIgnored(st: ScanState, line: string, language: string)
    requires AllWhitespace(line)
    ensures Step(st, line, language) == st
  {
    TrimSpec(line);
  }

  /** One line adds at most one to the count, and nothing when it is blank. */
  lemma StepBound(st: ScanState, line: string, language: string)
    ensures st.count <= Step(st, line, language).count <= st.count + (if Trim(line) == [] then 0 else 1)
  {
  }

  /** The scan counts at most the lines that are not whitespace only. */
  lemma {:induction false} RunBound(st: ScanState, lines: seq<string>, language: string)
    ensures st.count <= Run(st, lines, language).count <= st.count + NonBlank(lines)
    decreases |lines|
  {
    if lines != [] {
      StepBound(st, lines[0], language);
      RunBound(Step(st, lines[0], language), lines[1..], language);
    }
  }

  /** The count never exceeds the number of non-blank lines, nor the number of "\n"-separated lines. */
  lemma CountBound(code: string, language: string)
    ensures LinesOfCode(code, language) <= NonBlank(Split(code, '\n')) <= Occurrences(code, '\n') + 1
  {
    RunBound(Start, Split(code, '\n'), language);
  }

  /** In a language with no comment rules every non-blank line counts and the flag never moves. */
  lemma {:induction false} OtherLanguageRun(st: ScanState, lines: seq<string>, language: string)
    requires !IsCFamily(language) && language != "python"
    ensures Run(st, lines, language) == ScanState(st.count + NonBlank(lines), st.inBlock)
    decreases |lines|
  {
    if lines != [] {
      OtherLanguageRun(Step(st, lines[0], language), lines[1..], language);
    }
  }

  lemma OtherLanguageCount(code: string, language: string)
    requires !IsCFamily(language) && language != "python"
    ensures LinesOfCode(code, language) == NonBlank(Split(code, '\n'))
  {
    OtherLanguageRun(Start, Split(code, '\n'), language);
  }

  /**
   * The C and C++ rules for one non-blank line, one case per rule. The cases do
   * not depend on the order of the source's tests: a line inside a comment only
   * updates the flag, whatever it starts with.
   */
  lemma CFamilyRules(st: ScanState, line: string, language: string)
    requires IsCFamily(language) && !AllWhitespace(line)
    ensures var t, r := Trim(line), Step(st, line, language);
      && (st.inBlock ==> r == ScanState(st.count, !Contains(t, "*/")))
      && (!st.inBlock && StartsWith(t, "/*") ==> r == ScanState(st.count, !Contains(t, "*/")))
      && (!st.inBlock && StartsWith(t, "//") ==> r == st)
      && (!st.inBlock && !StartsWith(t, "/*") && !StartsWith(t, "//") ==> r == ScanState(st.count + 1, false))
  {
    assert Trim(line) != [] by {
      TrimSpec(line);
    }
    assert language != "python";
  }

  // Inside a C block comment every line up to and including the first line that
  // includes the closing star-slash is excluded, and the scan leaves the comment after it.
  lemma {:induction false} CBlockComment(st: ScanState, body: seq<string>, closer: string, language: string)
    requires IsCFamily(language) && st.inBlock
    requires forall k :: 0 <= k < |body| ==> !Contains(Trim(body[k]), "*/")
    requires Contains(Trim(closer), "*/")
    ensures Run(st, body + [closer], language) == ScanState(st.count, false)
    decreases |body|
  {
    if body == [] {
      assert Trim(closer) != [];
      assert [closer][1..] == [];
    } else {
      assert Step(st, body[0], language) == st;
      assert (body + [closer])[1..] == body[1..] + [closer];
      CBlockComment(st, body[1..], closer, language);
    }
  }

  /**
   * The Python rules for one non-blank line, one case per rule. The cases do not
   * depend on the order of the source's tests: a "#" line is skipped even inside
   * a docstring, and a triple-quote line is handled the same inside and outside.
   */
  lemma PythonRules(st: ScanState, line: string)
    requires !AllWhitespace(line)
    ensures var t, r := Trim(line), Step(st, line, "python");
      && (StartsWith(t, "#") ==> r == st)
      && (OpensDocstring(t) && ClosesOnSameLine(t) ==> r == st)
      && (OpensDocstring(t) && !ClosesOnSameLine(t) ==> r == ScanState(st.count, !st.inBlock))
      && (st.inBlock ==> r.count == st.count)
      && (!st.inBlock && !StartsWith(t, "#") && !OpensDocstring(t) ==> r == ScanState(st.count + 1, false))
  {
    assert Trim(line) != [] by {
      TrimSpec(line);
    }
    assert !IsCFamily("python") by {
      assert |"python"| == 6;
    }
    var t := Trim(line);
    if OpensDocstring(t) {
      assert t[0] == '"' || t[0] == '\'';
      assert !StartsWith(t, "#") by {
        assert t[..1][0] == t[0] != "#"[0];
      }
    }
  }

  /** The lines of a Python docstring block, delimiter lines included, count nothing and leave the flag off. */
  lemma PythonDocstring(count: nat, opener: string, body: seq<string>, closer: string)
    requires OpensDocstring(Trim(opener)) && !ClosesOnSameLine(Trim(opener))
    requires forall k :: 0 <= k < |body| ==> !OpensDocstring(Trim(body[k]))
    requires OpensDocstring(Trim(closer)) && !ClosesOnSameLine(Trim(closer))
    ensures Run(ScanState(count, false), [opener] + body + [closer], "python") == ScanState(count, false)
  {
    var outside, inside := ScanState(count, false), ScanState(count, true);
    DocstringDelimiter(outside, opener);
    RunOne(outside, opener, "python");
    InsideDocstring(count, body);
    DocstringDelimiter(inside, closer);
    RunOne(inside, closer, "python");
    RunConcat(outside, [opener], body, "python");
    RunConcat(outside, [opener] + body, [closer], "python");
  }

  /** A triple-quote line that does not close on itself toggles the flag and is not counted. */
  lemma DocstringDelimiter(st: ScanState, line: string)
    requires OpensDocstring(Trim(line)) && !ClosesOnSameLine(Trim(line))
    ensures Step(st, line, "python") == ScanState(st.count, !st.inBlock)
  {
    var t := Trim(line);
    assert t[0] == '"' || t[0] == '\'';
    assert !StartsWith(t, "#") by {
      assert t[..1][0] == t[0] != "#"[0];
    }
  }

  lemma RunOne(st: ScanState, line: string, language: string)
    ensures Run(st, [line], language) == Step(st, line, language)
  {
    assert [line][1..] == [];
  }

  /** Lines without triple quotes inside a docstring are all excluded. */
  lemma {:induction false} InsideDocstring(count: nat, body: seq<string>)
    requires forall k :: 0 <= k < |body| ==> !OpensDocstring(Trim(body[k]))
    ensures Run(ScanState(count, true), body, "python") == ScanState(count, true)
    decreases |body|
  {
    if body != [] {
      assert Step(ScanState(count, true), body[0], "python") == ScanState(count, true);
      InsideDocstring(count, body[1..]);
    }
  }

  // ---------------------------------------------------------------- the sample solution

  const Indent: string := "    "

  /** backend/sample/test.cpp, lines 1-2: the two includes. */
  const SampleIncludes: seq<string> := [
    "#include <bits/stdc++.h>",
    ("#include <sys/resource.h>" + " // Add this header")
  ]

  /** backend/sample/test.cpp, lines 3-4: the namespace and a blank line. */
  const SampleNamespace: seq<string> := [
    "using namespace std;",
    ""
  ]

  /** backend/sample/test.cpp, lines 5-6: the opening of the block comment. */
  const SampleCommentOpen: seq<string> := [
    "/*",
    ("TESTING LINES OF RELVANT" + " CODE")
  ]

  /** backend/sample/test.cpp, lines 7-8: the close of the block comment. */
  const SampleCommentClose: seq<string> := [
    "*/",
    ""
  ]

  /** backend/sample/test.cpp, lines 9-11: the greeting. */
  const SampleMain: seq<string> := [
    "int main() {",
    Indent + ("std::cout << \"Hello," + " World!\" << std::endl;"),
    ""
  ]

  /** backend/sample/test.cpp, lines 12-13: the two variables. */
  const SampleSum: seq<string> := [
    Indent + "int a = 5;",
    Indent + "int b = 10;"
  ]

  /** backend/sample/test.cpp, lines 14-15: the printed sum. */
  const SampleSumPrint: seq<string> := [
    Indent + ("std::cout << \"Sum: \" <<" + " (a + b) << std::endl;"),
    ""
  ]

  /** backend/sample/test.cpp, lines 16-17: the memory-check comment and its variable. */
  const SampleMemory: seq<string> := [
    Indent + ("// Add this block to" + " check memory"),
    Indent + "struct rusage usage;"
  ]

  /** backend/sample/test.cpp, lines 18-19: the memory query and its output. */
  const SampleMemoryPrint: seq<string> := [
    Indent + ("getrusage(RUSAGE_SELF," + " &usage);"),
    Indent + ("std::cout << \"Memory" + " usage: \" <<" + " usage.ru_maxrss << \" KB\"" + " << std::endl;")
  ]

  /** backend/sample/test.cpp, lines 20-21: a blank line and the trailing comment. */
  const SampleTrailer: seq<string> := [
    "",
    Indent + "// * Test complete */"
  ]

  /** backend/sample/test.cpp, lines 22-23: the return. */
  const SampleReturn: seq<string> := [
    Indent + "return 0;",
    "}"
  ]

  /** The lines of backend/sample/test.cpp, the sample C++ solution, as split at "\n". */
  const SampleCpp: seq<string> :=
    SampleIncludes + SampleNamespace + SampleCommentOpen + SampleCommentClose
    + SampleMain + SampleSum + SampleSumPrint + SampleMemory
    + SampleMemoryPrint + SampleTrailer + SampleReturn

  /** A non-blank line that is not a comment counts, outside a block comment. */
  lemma CodeLine(st: ScanState, indent: string, t: string, language: string)
    requires IsCFamily(language) && !st.inBlock && AllWhitespace(indent)
    requires t != [] && !IsWhitespace(t[0]) && !IsWhitespace(t[|t| - 1]) && t[0] != '/'
    ensures Step(st, indent + t, language) == ScanState(st.count + 1, false)
  {
    TrimIndented(indent, t);
  }

  /** A "//" line does not count. */
  lemma CommentLine(st: ScanState, indent: string, t: string, language: string)
    requires IsCFamily(language) && !st.inBlock && AllWhitespace(indent)
    requires |t| >= 2 && t[0] == '/' && t[1] == '/' && !IsWhitespace(t[|t| - 1])
    ensures Step(st, indent + t, language) == st
  {
    TrimIndented(indent, t);
    assert t[..2] == "//";
  }

  /** A line without a star, inside a block comment, keeps the scan in the comment. */
  lemma CommentBodyLine(st: ScanState, t: string, language: string)
    requires IsCFamily(language) && st.inBlock
    requires t != [] && !IsWhitespace(t[0]) && !IsWhitespace(t[|t| - 1]) && '*' !in t
    ensures Step(st, t, language) == st
  {
    TrimIndented("", t);
    assert "" + t == t;
    ContainsNeedsFirst(t, "*/");
  }

  /** The bare delimiters of a C block comment open and close it. */
  lemma CommentDelimiters(st: ScanState, language: string)
    requires IsCFamily(language)
    ensures !st.inBlock ==> Step(st, "/*", language) == ScanState(st.count, true)
    ensures st.inBlock ==> Step(st, "*/", language) == ScanState(st.count, false)
  {
  }

  lemma EmptyLine(st: ScanState, language: string)
    ensures Step(st, "", language) == st
  {
  }

  /** Scanning lines whose every step is known. */
  lemma {:induction false} RunTrace(states: seq<ScanState>, lines: seq<string>, language: string)
    requires |states| == |lines| + 1
    requires forall k :: 0 <= k < |lines| ==> Step(states[k], lines[k], language) == states[k + 1]
    ensures Run(states[0], lines, language) == states[|lines|]
    decreases |lines|
  {
    if lines != [] {
      RunTrace(states[1..], lines[1..], language);
    }
  }

  lemma SampleIncludesCount(c: nat)
    ensures Run(ScanState(c, false), SampleIncludes, "cpp") == ScanState(c + 2, false)
  {
    var states := [ScanState(c, false), ScanState(c + 1, false), ScanState(c + 2, false)];
    assert Step(states[0], SampleIncludes[0], "cpp") == states[1] by {
      CodeLine(states[0], "", "#include <bits/stdc++.h>", "cpp");
      assert "" + "#include <bits/stdc++.h>" == "#include <bits/stdc++.h>";
    }
    assert Step(states[1], SampleIncludes[1], "cpp") == states[2] by {
      CodeLine(states[1], "", ("#include <sys/resource.h>" + " // Add this header"), "cpp");
      assert "" + ("#include <sys/resource.h>" + " // Add this header") == ("#include <sys/resource.h>" + " // Add this header");
    }
    RunTrace(states, SampleIncludes, "cpp");
  }

  lemma SampleNamespaceCount(c: nat)
    ensures Run(ScanState(c, false), SampleNamespace, "cpp") == ScanState(c + 1, false)
  {
    var states := [ScanState(c, false), ScanState(c + 1, false), ScanState(c + 1, false)];
    assert Step(states[0], SampleNamespace[0], "cpp") == states[1] by {
      CodeLine(states[0], "", "using namespace std;", "cpp");
      assert "" + "using namespace std;" == "using namespace std;";
    }
    assert Step(states[1], SampleNamespace[1], "cpp") == states[2] by {
      EmptyLine(states[1], "cpp");
    }
    RunTrace(states, SampleNamespace, "cpp");
  }

  lemma SampleCommentOpenCount(c: nat)
    ensures Run(ScanState(c, false), SampleCommentOpen, "cpp") == ScanState(c, true)
  {
    var states := [ScanState(c, false), ScanState(c, true), ScanState(c, true)];
    assert Step(states[0], SampleCommentOpen[0], "cpp") == states[1] by {
      CommentDelimiters(states[0], "cpp");
    }
    assert Step(states[1], SampleCommentOpen[1], "cpp") == states[2] by {
      CommentBodyLine(states[1], ("TESTING LINES OF RELVANT" + " CODE"), "cpp");
    }
    RunTrace(states, SampleCommentOpen, "cpp");
  }

  lemma SampleCommentCloseCount(c: nat)
    ensures Run(ScanState(c, true), SampleCommentClose, "cpp") == ScanState(c, false)
  {
    var states := [ScanState(c, true), ScanState(c, false), ScanState(c, false)];
    assert Step(states[0], SampleCommentClose[0], "cpp") == states[1] by {
      CommentDelimiters(states[0], "cpp");
    }
    assert Step(states[1], SampleCommentClose[1], "cpp") == states[2] by {
      EmptyLine(states[1], "cpp");
    }
    RunTrace(states, SampleCommentClose, "cpp");
  }

  lemma SampleMainCount(c: nat)
    ensures Run(ScanState(c, false), SampleMain, "cpp") == ScanState(c + 2, false)
  {
    var states := [ScanState(c, false), ScanState(c + 1, false), ScanState(c + 2, false), ScanState(c + 2, false)];
    assert Step(states[0], SampleMain[0], "cpp") == states[1] by {
      CodeLine(states[0], "", "int main() {", "cpp");
      assert "" + "int main() {" == "int main() {";
    }
    assert Step(states[1], SampleMain[1], "cpp") == states[2] by {
      CodeLine(states[1], Indent, ("std::cout << \"Hello," + " World!\" << std::endl;"), "cpp");
    }
    assert Step(states[2], SampleMain[2], "cpp") == states[3] by {
      EmptyLine(states[2], "cpp");
    }
    RunTrace(states, SampleMain, "cpp");
  }

  lemma SampleSumCount(c: nat)
    ensures Run(ScanState(c, false), SampleSum, "cpp") == ScanState(c + 2, false)
  {
    var states := [ScanState(c, false), ScanState(c + 1, false), ScanState(c + 2, false)];
    assert Step(states[0], SampleSum[0], "cpp") == states[1] by {
      CodeLine(states[0], Indent, "int a = 5;", "cpp");
    }
    assert Step(states[1], SampleSum[1], "cpp") == states[2] by {
      CodeLine(states[1], Indent, "int b = 10;", "cpp");
    }
    RunTrace(states, SampleSum, "cpp");
  }

  lemma SampleSumPrintCount(c: nat)
    ensures Run(ScanState(c, false), SampleSumPrint, "cpp") == ScanState(c + 1, false)
  {
    var states := [ScanState(c, false), ScanState(c + 1, false), ScanState(c + 1, false)];
    assert Step(states[0], SampleSumPrint[0], "cpp") == states[1] by {
      CodeLine(states[0], Indent, ("std::cout << \"Sum: \" <<" + " (a + b) << std::endl;"), "cpp");
    }
    assert Step(states[1], SampleSumPrint[1], "cpp") == states[2] by {
      EmptyLine(states[1], "cpp");
    }
    RunTrace(states, SampleSumPrint, "cpp");
  }

  lemma SampleMemoryCount(c: nat)
    ensures Run(ScanState(c, false), SampleMemory, "cpp") == ScanState(c + 1, false)
  {
    var states := [ScanState(c, false), ScanState(c, false), ScanState(c + 1, false)];
    assert Step(states[0], SampleMemory[0], "cpp") == states[1] by {
      CommentLine(states[0], Indent, ("// Add this block to" + " check memory"), "cpp");
    }
    assert Step(states[1], SampleMemory[1], "cpp") == states[2] by {
      CodeLine(states[1], Indent, "struct rusage usage;", "cpp");
    }
    RunTrace(states, SampleMemory, "cpp");
  }

  lemma SampleMemoryPrintCount(c: nat)
    ensures Run(ScanState(c, false), SampleMemoryPrint, "cpp") == ScanState(c + 2, false)
  {
    var states := [ScanState(c, false), ScanState(c + 1, false), ScanState(c + 2, false)];
    assert Step(states[0], SampleMemoryPrint[0], "cpp") == states[1] by {
      CodeLine(states[0], Indent, ("getrusage(RUSAGE_SELF," + " &usage);"), "cpp");
    }
    assert Step(states[1], SampleMemoryPrint[1], "cpp") == states[2] by {
      CodeLine(states[1], Indent, ("std::cout << \"Memory" + " usage: \" <<" + " usage.ru_maxrss << \" KB\"" + " << std::endl;"), "cpp");
    }
    RunTrace(states, SampleMemoryPrint, "cpp");
  }

  lemma SampleTrailerCount(c: nat)
    ensures Run(ScanState(c, false), SampleTrailer, "cpp") == ScanState(c, false)
  {
    var states := [ScanState(c, false), ScanState(c, false), ScanState(c, false)];
    assert Step(states[0], SampleTrailer[0], "cpp") == states[1] by {
      EmptyLine(states[0], "cpp");
    }
    assert Step(states[1], SampleTrailer[1], "cpp") == states[2] by {
      CommentLine(states[1], Indent, "// * Test complete */", "cpp");
    }
    RunTrace(states, SampleTrailer, "cpp");
  }

  lemma SampleReturnCount(c: nat)
    ensures Run(ScanState(c, false), SampleReturn, "cpp") == ScanState(c + 2, false)
  {
    var states := [ScanState(c, false), ScanState(c + 1, false), ScanState(c + 2, false)];
    assert Step(states[0], SampleReturn[0], "cpp") == states[1] by {
      CodeLine(states[0], Indent, "return 0;", "cpp");
    }
    assert Step(states[1], SampleReturn[1], "cpp") == states[2] by {
      CodeLine(states[1], "", "}", "cpp");
      assert "" + "}" == "}";
    }
    RunTrace(states, SampleReturn, "cpp");
  }

  lemma SampleRun(c: nat)
    ensures Run(ScanState(c, false), SampleCpp, "cpp") == ScanState(c + 13, false)
  {
    var st := ScanState(c, false);
    SampleIncludesCount(c);
    SampleNamespaceCount(c + 2);
    SampleCommentOpenCount(c + 3);
    SampleCommentCloseCount(c + 3);
    SampleMainCount(c + 3);
    SampleSumCount(c + 5);
    SampleSumPrintCount(c + 7);
    SampleMemoryCount(c + 8);
    SampleMemoryPrintCount(c + 9);
    SampleTrailerCount(c + 11);
    SampleReturnCount(c + 11);
    var p0 := SampleIncludes;
    var p1 := p0 + SampleNamespace;
    RunConcat(st, p0, SampleNamespace, "cpp");
    var p2 := p1 + SampleCommentOpen;
    RunConcat(st, p1, SampleCommentOpen, "cpp");
    var p3 := p2 + SampleCommentClose;
    RunConcat(st, p2, SampleCommentClose, "cpp");
    var p4 := p3 + SampleMain;
    RunConcat(st, p3, SampleMain, "cpp");
    var p5 := p4 + SampleSum;
    RunConcat(st, p4, SampleSum, "cpp");
    var p6 := p5 + SampleSumPrint;
    RunConcat(st, p5, SampleSumPrint, "cpp");
    var p7 := p6 + SampleMemory;
    RunConcat(st, p6, SampleMemory, "cpp");
    var p8 := p7 + SampleMemoryPrint;
    RunConcat(st, p7, SampleMemoryPrint, "cpp");
    var p9 := p8 + SampleTrailer;
    RunConcat(st, p8, SampleTrailer, "cpp");
    var p10 := p9 + SampleReturn;
    RunConcat(st, p9, SampleReturn, "cpp");
  }

  /**
   * The sample has 13 relevant lines: its block comment (three lines), its two line
   * comments and its five blank lines are excluded.
   */
  lemma SampleCount()
    ensures Run(Start, SampleCpp, "cpp").count == 13
  {
    SampleRun(0);
  }

  /** The count of a text made of lines joined with "\n" is the scan of those lines. */
  lemma JoinedLines(lines: seq<string>, language: string)
    requires |lines| > 0 && forall k :: 0 <= k < |lines| ==> '\n' !in lines[k]
    ensures LinesOfCode(Join(lines, "\n"), language) == Run(Start, lines, language).count
  {
    SplitJoin(lines, '\n');
  }
}
