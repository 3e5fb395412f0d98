/**
 * The sandbox runner around the container: the language a submission runs as,
 * the container profile of each language, the file name the solution is copied
 * to, and the merge of the execution statistics into the leaderboard entry
 * (`runSubmission`). The container itself is an outcome passed in.
 */
module Runner {
  import opened Wrappers
  import opened Strings
  import opened LineCount
  import Tar
  import Bytes

  // ---------------------------------------------------------------- languages

  predicate Supported(language: string)
  {
    language == "python" || language == "c" || language == "cpp"
  }

  /** `detectLanguage(filename, mimetype)`: the lowercased last dot-segment, or a python mimetype. */
  function DetectLanguage(filename: string, mimetype: string): (r: string)
    ensures Supported(r)
    ensures Contains(mimetype, "python") ==> r == "python"
  {
    var ext := Lower(Last(Split(filename, '.')));
    if ext == "py" || Contains(mimetype, "python") then "python"
    else if ext == "c" then "c"
    else if ext == "cpp" || ext == "cc" || ext == "cxx" then "cpp"
    else "python"
  }

  /** What `detectLanguage` reads the extension as, when the mimetype does not say python. */
  lemma DetectByExtension(filename: string, mimetype: string)
    requires !Contains(mimetype, "python")
    ensures var ext, r := Lower(Last(Split(filename, '.'))), DetectLanguage(filename, mimetype);
      && (r == "c" <==> ext == "c")
      && (r == "cpp" <==> ext == "cpp" || ext == "cc" || ext == "cxx")
      && (r == "python" <==> ext != "c" && ext != "cpp" && ext != "cc" && ext != "cxx")
  {
  }

  /**
   * A language name given as both file name and mimetype is detected as itself,
   * so `runSubmission` never asks for an unsupported language.
   */
  lemma DetectLanguageFixed(language: string)
    requires Supported(language)
    ensures DetectLanguage(language, language) == language
  {
    assert forall i :: 0 <= i < |language| ==> 'a' <= language[i] <= 'z';
    PlainExtension(language);
    if language == "python" {
      assert StartsWith(language, "python");
    } else {
      ContainsNeedsRoom(language, "python");
    }
  }

  /** A dot-free name without capitals is its own extension. */
  lemma PlainExtension(name: string)
    requires forall i :: 0 <= i < |name| ==> 'a' <= name[i] <= 'z'
    ensures Lower(Last(Split(name, '.'))) == name
  {
    SplitNoSep(name, '.');
    LowerNoUpper(name);
  }

  // ---------------------------------------------------------------- containers

  /** The image of a language and the command line the container runs on the solution file. */
  datatype ContainerProfile = ContainerProfile(image: string, cmd: string -> seq<string>)

  /** `LANGUAGE_CONFIG[language]`. */
  function LanguageConfig(language: string): (r: Option<ContainerProfile>)
    ensures r.Some? <==> Supported(language)
  {
    if language == "python" then
      Some(ContainerProfile("python:3.11-slim", filename => ["python", filename]))
    else if language == "c" then
      Some(ContainerProfile("gcc:latest", filename => ["sh", "-c", "gcc -o /tmp/solution " + filename + " && /tmp/solution"]))
    else if language == "cpp" then
      Some(ContainerProfile("gcc:latest", filename => ["sh", "-c", "g++ -o /tmp/solution " + filename + " && /tmp/solution"]))
    else None
  }

  /** Python runs the file with the interpreter; C and C++ compile it to /tmp/solution and run that. */
  lemma LanguageCommands(filename: string)
    ensures LanguageConfig("python").value.cmd(filename) == ["python", filename]
    ensures LanguageConfig("c").value.image == LanguageConfig("cpp").value.image == "gcc:latest"
    ensures var c := LanguageConfig("c").value.cmd(filename);
      |c| == 3 && c[..2] == ["sh", "-c"] && StartsWith(c[2], "gcc ") && EndsWith(c[2], " && /tmp/solution")
    ensures var c := LanguageConfig("cpp").value.cmd(filename);
      |c| == 3 && c[..2] == ["sh", "-c"] && StartsWith(c[2], "g++ ") && EndsWith(c[2], " && /tmp/solution")
  {
    var c := "gcc -o /tmp/solution " + filename + " && /tmp/solution";
    assert c[..4] == "gcc ";
    assert c[|c| - 17..] == " && /tmp/solution";
    var cpp := "g++ -o /tmp/solution " + filename + " && /tmp/solution";
    assert cpp[..4] == "g++ ";
    assert cpp[|cpp| - 17..] == " && /tmp/solution";
  }

  /** The extension the solution file gets inside the container. */
  function Extension(language: string): string
  {
    if language == "python" then "py" else language
  }

  /** The path the solution is copied to: `/tmp/solution.<ext>`. */
  function SolutionFilename(language: string): string
  {
    "/tmp/solution." + Extension(language)
  }

  /** The name the solution file carries in the archive: the path with "/tmp/" removed. */
  function ArchiveName(language: string): string
  {
    ReplaceFirst(SolutionFilename(language), "/tmp/", "")
  }

  /** The three extensions are dot-free lowercase ASCII and give a short, NUL-free file name. */
  lemma ExtensionText(language: string)
    requires Supported(language)
    ensures var ext := Extension(language);
      && '.' !in ext && Lower(ext) == ext
      && Tar.IsAscii("solution." + ext) && |"solution." + ext| <= 100
      && 0 !in Tar.Ascii("solution." + ext)
  {
    var ext := Extension(language);
    var n := "solution." + ext;
    if language == "python" {
      assert n == "solution.py";
    } else if language == "c" {
      assert n == "solution.c";
    } else {
      assert n == "solution.cpp";
    }
    assert Tar.IsAscii(n);
    var b := Tar.Ascii(n);
    forall i | 0 <= i < |b| ensures b[i] != 0 {
      assert b[i] == n[i] as int as Bytes.byte;
    }
  }

  /** `SolutionFilename` with the "/tmp/" prefix removed, for any extension. */
  lemma ArchiveNameSplit(language: string)
    ensures ArchiveName(language) == "solution." + Extension(language)
  {
    var ext := Extension(language);
    assert SolutionFilename(language) == "/tmp/" + ("solution." + ext);
    ReplacePrefix("/tmp/", "solution." + ext);
  }

  /**
   * The archived name is `solution.<ext>`, short enough for the tar name field, and
   * read back by `detectLanguage` as the language it was made for.
   */
  lemma ArchiveNameLanguage(language: string, mimetype: string)
    requires Supported(language) && !Contains(mimetype, "python")
    ensures ArchiveName(language) == "solution." + Extension(language)
    ensures |ArchiveName(language)| <= 100 && Tar.IsAscii(ArchiveName(language))
    ensures DetectLanguage(ArchiveName(language), mimetype) == language
  {
    var ext := Extension(language);
    ArchiveNameSplit(language);
    ExtensionText(language);
    assert "solution." + ext == "solution" + (['.'] + ext);
    LastPiece("solution", ext, '.');
  }

  /** The archive of the solution hands the container exactly the file `solution.<ext>` with the code. */
  lemma SolutionArchive(language: string, code: seq<Bytes.byte>, mtime: nat)
    requires Supported(language) && |code| < Tar.MaxOctal11
    ensures ArchiveName(language) == "solution." + Extension(language)
    ensures Tar.IsAscii(ArchiveName(language))
    ensures var name := Tar.Ascii(ArchiveName(language));
      Tar.Extract(Tar.Archive(name, code, mtime)) == Some(Tar.Member(name, code))
  {
    ArchiveNameSplit(language);
    ExtensionText(language);
    var name := Tar.Ascii(ArchiveName(language));
    Tar.ExtractArchive(name, code, mtime);
  }

  // ---------------------------------------------------------------- running a submission

  /** The statistics of one container run. */
  datatype ExecutionResult = ExecutionResult(
    stdout: string, stderr: string, exitCode: int, executionTimeMs: int, memoryUsageKb: int)

  /** How `executeInContainer` ends: with the statistics, or by throwing. */
  datatype Outcome = Completed(result: ExecutionResult) | Failed(message: string)

  /** A leaderboard entry as the backend builds it; `submittedAt` is a time in milliseconds. */
  datatype Entry = Entry(
    rank: int, userId: string, username: string, year: int, day: int,
    part1Completed: bool, part2Completed: bool, language: string,
    executionTimeMs: int, memoryUsageKb: int, linesOfRelevantCode: int, submittedAt: int)

  /**
   * `executeInContainer`: an unsupported language throws before any container is
   * made; otherwise the run ends as the container did (`container` stands for the
   * whole Docker lifecycle).
   */
  function Execute(language: string, container: Outcome): (r: Outcome)
    ensures !Supported(language) ==> r == Failed("Unsupported language: " + language)
    ensures Supported(language) ==> r == container
  {
    if LanguageConfig(language).None? then Failed("Unsupported language: " + language)
    else container
  }

  /**
   * `runSubmission(solution, entry)`: the language detected from the entry, the
   * statistics of the run or -1 for both when it threw, and the relevant lines of
   * the solution text.
   */
  function RunSubmission(solution: string, entry: Entry, container: Outcome): (r: Entry)
    ensures SameSubmission(r, entry) && Supported(r.language)
  {
    var language := DetectLanguage(entry.language, entry.language);
    match Execute(language, container)
    case Completed(result) =>
      entry.(language := language, executionTimeMs := result.executionTimeMs,
             memoryUsageKb := result.memoryUsageKb,
             linesOfRelevantCode := LinesOfCode(solution, language))
    case Failed(_) =>
      entry.(language := language, executionTimeMs := -1, memoryUsageKb := -1,
             linesOfRelevantCode := LinesOfCode(solution, language))
  }

  /** Every field but the four the run decides is the entry's own. */
  predicate SameSubmission(a: Entry, b: Entry)
  {
    a.rank == b.rank && a.userId == b.userId && a.username == b.username && a.year == b.year
    && a.day == b.day && a.part1Completed == b.part1Completed && a.part2Completed == b.part2Completed
    && a.submittedAt == b.submittedAt
  }

  /**
   * `runSubmission` never throws, and on both branches keeps the entry, sets the
   * detected language and the relevant-line count of the solution; a completed run
   * supplies time and memory, a failed one -1 for both.
   */
  lemma RunSubmissionResult(solution: string, entry: Entry, container: Outcome)
    ensures var r, language := RunSubmission(solution, entry, container), DetectLanguage(entry.language, entry.language);
      && SameSubmission(r, entry)
      && r.language == language && Supported(r.language)
      && r.linesOfRelevantCode == LinesOfCode(solution, language)
      && (container.Completed? ==>
            r.executionTimeMs == container.result.executionTimeMs
            && r.memoryUsageKb == container.result.memoryUsageKb)
      && (container.Failed? ==> r.executionTimeMs == -1 && r.memoryUsageKb == -1)
  {
  }

  /** An entry already carrying a supported language keeps it, and its line count is bounded by the text. */
  lemma RunSubmissionLanguage(solution: string, entry: Entry, container: Outcome)
    requires Supported(entry.language)
    ensures RunSubmission(solution, entry, container).language == entry.language
    ensures 0 <= RunSubmission(solution, entry, container).linesOfRelevantCode <= Occurrences(solution, '\n') + 1
  {
    DetectLanguageFixed(entry.language);
    CountBound(solution, entry.language);
  }
}
