# aoc_leaderboard: runner, submission and leaderboard-query core in Dafny

This project models the deterministic core of the aoc_leaderboard system, an
Advent of Code leaderboard. Users upload a solution and an input file. The
backend runs the solution in a Docker sandbox and records its time, memory and
relevant line count. The front end lists entries and filters them. The model
covers:

- the single-file tar archive the runner copies into the container;
- the language detection and the relevant-line counter;
- the merge of the container statistics into the leaderboard entry;
- the submission handler's helpers: the upload filter, the file-name
  classifier, the login cookie, the user-id slug, the user precedence, the day
  and year checks and the parts message;
- the client's sample filter, its query builder (a `URLSearchParams` filled by
  `set`), the `application/x-www-form-urlencoded` text of the query, and the
  request URL.

Modules:

| module | file | models |
|---|---|---|
| `Wrappers` | wrappers.dfy | `Option`, for `null`/`undefined` |
| `Bytes` | bytes.dfy | the `byte` newtype |
| `Strings` | strings.dfy | the JavaScript string operations the core uses: `split`, `join`, `pop`, `includes`, `replace`, `toLowerCase`, `trim`, `toString(radix)`, `padStart` |
| `Tar` | tar.dfy | `createTarStream`: an array-filling header builder, the archive as a function, and a reader that inverts it |
| `LineCount` | linecount.dfy | `countLinesOfCode`: the loop as a method, proved equal to a fold over the lines |
| `Runner` | runner.dfy | `detectLanguage`, `LANGUAGE_CONFIG`, the solution file name, `executeInContainer`'s guard, `runSubmission` |
| `Submissions` | submissions.dfy | the helpers of backend/src/submissions.ts and the handler's decision flow |
| `Leaderboard` | leaderboard.dfy | `filterSampleEntries`, `buildQuery` as a class with `set`, `toString`, the URL |

Where the source works step by step, the model does too:

- `Tar.FillHeader`, `Tar.ChecksumOf` and `Tar.BuildHeader` fill and sum a
  512-element array.
- `LineCount.CountLinesOfCode` is the `for` loop, with the count and the
  `inBlockComment` flag as its variables.
- `Submissions.PartsMessage` pushes onto a list.
- `Leaderboard.BuildQuery` calls `SearchParams.Set` on a fresh object.

Each of these methods is proved equal to a specification function, and the
lemmas are about those functions.

Inputs the source takes from its environment are parameters:

- the clock (`Date.now()`) is `nowMs` or `now`;
- the outcome of the Docker run is an `Outcome` value;
- the configured API base is an `Option<string>`.

## Model

| member | source | states |
|---|---|---|
| Strings.Split | backend/src/dockerRunner.ts:48 | `split` on one character gives one more piece than there are separators, and no piece holds the separator |
| Strings.JoinSplit | backend/src/dockerRunner.ts:48 | joining the pieces of a split with the separator gives the text back |
| Strings.SplitJoin | backend/src/submissions.ts:176 | splitting a join of separator-free pieces gives the pieces back |
| Strings.SplitNoSep | backend/src/dockerRunner.ts:48 | a text without the separator splits into itself |
| Strings.SplitConcat | backend/src/submissions.ts:176 | `a + sep + b` with a separator-free `a` splits into `a` and the pieces of `b` |
| Strings.LastPiece | backend/src/dockerRunner.ts:48 | `pop()` after a split of `a + sep + b`, both separator-free, is `b` |
| Strings.LastAfterSep | backend/src/submissions.ts:20 | a text that holds the separator ends with the separator and the last piece |
| Strings.SegmentSuffix | backend/src/submissions.ts:146-148 | a text ending in `sep + b` (separator-free `b`) ends in `sep + x`, with `x` separator-free, exactly when `x == b` |
| Strings.ContainsAt | backend/src/dockerRunner.ts:292 | `includes` holds exactly when the pattern occurs at some position |
| Strings.StartsWithAt | backend/src/dockerRunner.ts:297-310 | `startsWith` (Strings.StartsWith) holds exactly when the pattern occurs at position 0 |
| Strings.EndsWithAt | backend/src/dockerRunner.ts:312 | `endsWith` (Strings.EndsWith) holds exactly when the pattern occurs at position `|s| - |p|` |
| Strings.IndexOf | backend/src/dockerRunner.ts:292 | the result is an occurrence with none before it, or there is no occurrence at all |
| Strings.ReplaceFirst | backend/src/dockerRunner.ts:123 | a `replace` with a string pattern keeps the text when there is no occurrence (IndexOf), and otherwise swaps `|p|` characters for the replacement |
| Strings.ReplacePrefix | backend/src/dockerRunner.ts:123 | `replace(p, "")` on a text starting with `p` drops that prefix |
| Strings.Lower | backend/src/dockerRunner.ts:48 | `toLowerCase` keeps the length and lowers each character on its own |
| Strings.LowerKeepsSeparator | backend/src/submissions.ts:20 | lowercasing keeps every non-letter separator where it was and creates none |
| Strings.LowerSuffix | backend/src/submissions.ts:145-148 | lowercasing keeps an ending, lowercased |
| Strings.TrimStartSpec | backend/src/dockerRunner.ts:284 | the leading whitespace run is removed and the result starts at a non-whitespace character |
| Strings.TrimEndSpec | backend/src/dockerRunner.ts:284 | the trailing whitespace run is removed and the result ends at a non-whitespace character |
| Strings.Trim | backend/src/dockerRunner.ts:284 | `trim()`: the trailing run removed from the text without its leading run; TrimSpec states the result |
| Strings.TrimSpec | backend/src/dockerRunner.ts:284 | `trim` is empty exactly on all-whitespace text; otherwise it is the slice of the input after the leading run, with no whitespace at either end |
| Strings.TrimIndented | backend/src/dockerRunner.ts:284 | an indent followed by a text with non-whitespace ends trims to the text |
| Strings.ContainsNeedsRoom | backend/src/dockerRunner.ts:50 | a text shorter than the pattern does not include it |
| Strings.Digits | backend/src/dockerRunner.ts:240 | every digit is below the base and there is no leading zero |
| Strings.DigitsRoundTrip | backend/src/dockerRunner.ts:240 | the digits of `n` read back as `n` |
| Strings.DigitsLength | backend/src/dockerRunner.ts:240 | `n` has at most `k` digits exactly when `n < b^k` |
| Strings.DigitsValueLeadingZeros | backend/src/dockerRunner.ts:240 | zeros in front of digits do not change their value |
| Strings.IntToString | aoc_leader/src/api/leaderboard.ts:71 | `toString()` of an integer is never empty |
| Strings.IntToStringDecimal | aoc_leader/src/api/leaderboard.ts:71 | `toString()` of an integer is its decimal numeral: a '-' exactly for a negative number, then digits '0'..'9' with no leading zero, reading back as the number |
| Strings.PadStart | backend/src/dockerRunner.ts:240 | `padStart(w, c)` has length `max(|s|, w)`, ends with `s` and is `c` before it |
| Tar.Ascii | backend/src/dockerRunner.ts:228 | an ASCII text is written as one byte per character |
| Tar.OctalTextDigits | backend/src/dockerRunner.ts:240 | `toString(8).padStart(...)` has only the characters '0'..'7' |
| Tar.Octal | backend/src/dockerRunner.ts:240 | the octal text's bytes are all in 48..55 |
| Tar.Field | backend/src/dockerRunner.ts:227-251 | a field holds `width` bytes whatever the length of its data: the data cut to the width, then zeros |
| Tar.Write | backend/src/dockerRunner.ts:228 | `buf.write(text, offset, length)` stores `min(|text|, length)` bytes of `text` at the offset and changes no other byte |
| Tar.FillHeader | backend/src/dockerRunner.ts:225-251 | the eight `write` calls into a zeroed 512-byte buffer leave it equal to the unsigned header |
| Tar.ChecksumOf | backend/src/dockerRunner.ts:254-257 | the checksum loop computes the sum of all 512 header bytes |
| Tar.BuildHeader | backend/src/dockerRunner.ts:225-258 | the filled, summed and signed buffer is the header with its checksum field |
| Tar.CreateTarStream | backend/src/dockerRunner.ts:223-273 | the result is the archive function on the name, the content and `floor(now / 1000)` |
| Tar.Archive | backend/src/dockerRunner.ts:223-273 | the archive of one member holds at least the header, the content and the two end blocks; ArchiveLength, ArchiveBody and ArchiveHeader give its layout |
| Tar.ArchiveLength | backend/src/dockerRunner.ts:261-270 | the length is `512 + 512 * ceil(n / 512) + 1024`, a multiple of 512, with no padding when `n` is a multiple of 512 |
| Tar.ArchiveBody | backend/src/dockerRunner.ts:260-270 | bytes `512 .. 512 + n` are the content and every byte after it is zero |
| Tar.ArchiveHeader | backend/src/dockerRunner.ts:270 | the first block of the archive is the header for the content's length |
| Tar.UnsignedHeader | backend/src/dockerRunner.ts:225-251 | the header as the `write` calls leave it, before the checksum, is one 512-byte block |
| Tar.Header | backend/src/dockerRunner.ts:225-258 | the header of a member is one 512-byte block |
| Tar.HeaderOf | backend/src/dockerRunner.ts:225-258 | the unsigned header with the checksum text at 148..155 is one 512-byte block; HeaderFields, HeaderFixed and HeaderChecksum give its bytes |
| Tar.HeaderByte | backend/src/dockerRunner.ts:227-251 | outside the checksum field the header byte is what the field writes left there |
| Tar.HeaderFields | backend/src/dockerRunner.ts:227-245 | bytes 0..99 hold the name, 124..135 the size text and 136..147 the mtime text, each cut to its width and zero-filled |
| Tar.HeaderFixed | backend/src/dockerRunner.ts:230-251 | bytes 100..123 are "0000644\0", "0000000\0", "0000000\0", byte 156 is '0', and bytes 157..511 are zero |
| Tar.BlankedIsUnsigned | backend/src/dockerRunner.ts:247-258 | the header with its checksum field set back to spaces is the header that was summed |
| Tar.ChecksumSlice | backend/src/dockerRunner.ts:258 | the checksum field holds the first eight bytes of the checksum text of the summed header |
| Tar.SumFits | backend/src/dockerRunner.ts:254-258 | any 512 bytes sum to less than 8^6, so the checksum text is six octal digits, a NUL and a space |
| Tar.SumBound | backend/src/dockerRunner.ts:254-257 | a sum of bytes is at most 255 times their number |
| Tar.HeaderChecksum | backend/src/dockerRunner.ts:247-258 | bytes 148..155 are the six-digit octal sum of the header with those bytes as spaces, then NUL and space |
| Tar.NumberFieldText | backend/src/dockerRunner.ts:240-245 | below 8^11 a size or time field is 11 octal digits and a NUL, and its digits read back as the number |
| Tar.OctalWidth11 | backend/src/dockerRunner.ts:240 | a number below 8^11 pads to exactly 11 octal digits |
| Tar.OctalWidth | backend/src/dockerRunner.ts:240 | a number below 8^w pads to exactly `w` octal digits |
| Tar.OctalRoundTrip | backend/src/dockerRunner.ts:240 | the padded octal text reads back as the number |
| Tar.OctalDigitValues | backend/src/dockerRunner.ts:240 | the digits of the padded text are zeros followed by the octal digits of the number |
| Tar.Extract | backend/src/dockerRunner.ts:223-273 | a reader of the first member (checksum check, size field, NUL-ended name) returns a NUL-free name of at most 100 bytes and content taken from the bytes after the header |
| Tar.UntilNulPadded | backend/src/dockerRunner.ts:228 | a NUL-free name written into a zeroed field reads back up to the first NUL as itself |
| Tar.ExtractHeaderOf | backend/src/dockerRunner.ts:225-258 | the reader accepts every header the builder lays out and returns its name and the announced number of content bytes |
| Tar.ExtractArchive | backend/src/dockerRunner.ts:223-273 | round trip: the reader recovers the name and content of every archive the builder makes, for a NUL-free name of at most 100 bytes and content below 8^11 bytes |
| Tar.NumberFieldReads | backend/src/dockerRunner.ts:240-245 | the first 11 bytes of a size field are octal and read back as the size |
| Tar.BodyPrefix | backend/src/dockerRunner.ts:260-265 | the padded body starts with the content |
| LineCount.CountLinesOfCode | backend/src/dockerRunner.ts:278-325 | the loop's count equals the fold of the per-line rules over the "\n"-separated lines |
| LineCount.Step | backend/src/dockerRunner.ts:283-321 | one line of the loop body adds at most one to the count; the rules per language are CFamilyRules and PythonRules |
| LineCount.Run | backend/src/dockerRunner.ts:283-322 | the loop over the lines as a fold of Step, never lowering the count |
| LineCount.LinesOfCode | backend/src/dockerRunner.ts:278-325 | the count of the fold over the "\n"-separated lines from a zero count outside any comment is at most the number of those lines; CountBound and JoinedLines state more |
| LineCount.NonBlank | backend/src/dockerRunner.ts:287 | there are at most as many non-blank lines as lines |
| LineCount.RunConcat | backend/src/dockerRunner.ts:283-322 | scanning two runs of lines one after the other is scanning their concatenation |
| LineCount.BlankIgnored | backend/src/dockerRunner.ts:284-287 | a whitespace-only line changes neither the count nor the flag |
| LineCount.StepBound | backend/src/dockerRunner.ts:283-322 | one line adds at most one to the count, and nothing when blank |
| LineCount.RunBound | backend/src/dockerRunner.ts:283-322 | a scan adds at most the number of non-blank lines |
| LineCount.CountBound | backend/src/dockerRunner.ts:278-325 | the count is at most the number of non-blank lines, which is at most the number of "\n"-separated lines |
| LineCount.OtherLanguageRun | backend/src/dockerRunner.ts:289-321 | for a language other than c, cpp and python every non-blank line counts and the flag never changes |
| LineCount.OtherLanguageCount | backend/src/dockerRunner.ts:278-325 | for such a language the count is exactly the number of non-blank lines |
| LineCount.CFamilyRules | backend/src/dockerRunner.ts:289-304 | for c/cpp inside a comment a line only updates the flag; a "/*" line opens a comment unless it includes "*/"; a "//" line is skipped; any other line counts |
| LineCount.CBlockComment | backend/src/dockerRunner.ts:291-296 | inside a C comment every line up to and including the first one that includes "*/" is excluded, and the scan leaves the comment |
| LineCount.PythonRules | backend/src/dockerRunner.ts:307-319 | for python a "#" line is skipped; a triple-quote line is skipped and toggles the flag unless it is longer than 3 and ends with triple quotes; inside a docstring nothing counts; any other line counts |
| LineCount.PythonDocstring | backend/src/dockerRunner.ts:310-318 | a docstring block, delimiter lines included, counts nothing and leaves the flag off |
| LineCount.DocstringDelimiter | backend/src/dockerRunner.ts:310-316 | a triple-quote line that does not close on itself toggles the flag and is not counted |
| LineCount.InsideDocstring | backend/src/dockerRunner.ts:318 | lines without triple quotes inside a docstring are all excluded |
| LineCount.CodeLine | backend/src/dockerRunner.ts:290-321 | for c/cpp outside a comment an indented line not starting with '/' counts |
| LineCount.CommentLine | backend/src/dockerRunner.ts:303 | for c/cpp an indented "//" line is not counted |
| LineCount.CommentBodyLine | backend/src/dockerRunner.ts:291-295 | a line without '*' inside a C comment keeps the scan in the comment |
| LineCount.CommentDelimiters | backend/src/dockerRunner.ts:291-302 | a bare "/*" opens a C comment and a bare "*/" closes it |
| LineCount.SampleIncludesCount | backend/sample/test.cpp:1-2 | the two includes count 2 |
| LineCount.SampleNamespaceCount | backend/sample/test.cpp:3-4 | the `using` line counts and the blank line does not |
| LineCount.SampleCommentOpenCount | backend/sample/test.cpp:5-6 | the "/*" line and the comment text count nothing and open the comment |
| LineCount.SampleCommentCloseCount | backend/sample/test.cpp:7-8 | the "*/" line closes the comment; neither it nor the blank line counts |
| LineCount.SampleMainCount | backend/sample/test.cpp:9-11 | `main` and the greeting count 2; the blank line does not |
| LineCount.SampleSumCount | backend/sample/test.cpp:12-13 | the two declarations count 2 |
| LineCount.SampleSumPrintCount | backend/sample/test.cpp:14-15 | the printed sum counts 1 |
| LineCount.SampleMemoryCount | backend/sample/test.cpp:16-17 | the "//" comment is skipped and the declaration counts 1 |
| LineCount.SampleMemoryPrintCount | backend/sample/test.cpp:18-19 | the call and the output count 2 |
| LineCount.SampleTrailerCount | backend/sample/test.cpp:20-21 | the blank line and the "// * ... */" comment count nothing |
| LineCount.SampleReturnCount | backend/sample/test.cpp:22-23 | the return and the closing brace count 2 |
| LineCount.SampleRun | backend/sample/test.cpp:1-23 | the sample adds 13 to the count and ends outside a comment |
| LineCount.SampleCount | backend/sample/test.cpp:1-23 | the sample has 13 relevant lines |
| LineCount.JoinedLines | backend/src/dockerRunner.ts:279 | the count of lines joined with "\n" is the scan of those lines |
| Runner.DetectLanguage | backend/src/dockerRunner.ts:47-56 | the result is always python, c or cpp, and a mimetype including "python" always gives python |
| Runner.DetectByExtension | backend/src/dockerRunner.ts:47-56 | without a python mimetype: c exactly for extension "c", cpp exactly for "cpp", "cc" or "cxx", python for anything else |
| Runner.DetectLanguageFixed | backend/src/dockerRunner.ts:336 | each supported language given as both arguments is detected as itself |
| Runner.LanguageConfig | backend/src/dockerRunner.ts:16-29 | a profile exists exactly for python, c and cpp |
| Runner.LanguageCommands | backend/src/dockerRunner.ts:16-29 | python runs the file with the interpreter; c and cpp use gcc:latest, run `sh -c`, compile with gcc or g++ and run /tmp/solution |
| Runner.ExtensionText | backend/src/dockerRunner.ts:83 | the file extension of each language is dot-free and lowercase, and `solution.<ext>` is short, NUL-free ASCII |
| Runner.ArchiveNameSplit | backend/src/dockerRunner.ts:123 | removing "/tmp/" from the solution path gives `solution.<ext>` |
| Runner.ArchiveNameLanguage | backend/src/dockerRunner.ts:123 | the archived name fits the tar name field and is detected as the language it was made for |
| Runner.SolutionArchive | backend/src/dockerRunner.ts:123-124 | the solution's archive is read back as the file `solution.<ext>` holding the code |
| Runner.Execute | backend/src/dockerRunner.ts:78-81 | an unsupported language fails with "Unsupported language: " and the language; otherwise the run ends as the container did |
| Runner.RunSubmission | backend/src/dockerRunner.ts:330-374 | `runSubmission` keeps every other field of the entry and sets a supported language; RunSubmissionResult gives the time, memory and line count |
| Runner.RunSubmissionResult | backend/src/dockerRunner.ts:330-374 | `runSubmission` never fails; it keeps every other field, sets the detected language and the line count, and takes time and memory from the run, or -1 for both when the run failed |
| Runner.RunSubmissionLanguage | backend/src/dockerRunner.ts:336 | an entry with a supported language keeps it, and its line count is between 0 and the number of lines |
| Submissions.DetectLanguageFromFilename | backend/src/submissions.ts:144-150 | the result is always python, c or cpp |
| Submissions.FilenameSuffixes | backend/src/submissions.ts:144-150 | cpp exactly for a lowercase ".cpp", ".cc" or ".cxx" ending, c exactly for ".c", python for ".py" or any other ending |
| Submissions.FilenameAgreesWithRunner | backend/src/submissions.ts:144-150 | for a name holding '.', the suffix test agrees with the runner's `detectLanguage` |
| Submissions.SuffixLanguage | backend/src/submissions.ts:146-148 | for a name ending in '.' and a dot-free segment, each suffix test is a test on that segment |
| Submissions.FileFilterRule | backend/src/submissions.ts:18-28 | "file" is accepted exactly for a lowercase last dot-segment py, c or cpp, "input" exactly for txt; every refusal is "Invalid file type" |
| Submissions.FileFilter | backend/src/submissions.ts:13-29 | multer's `fileFilter`: every refusal carries "Invalid file type"; FileFilterRule says which uploads pass |
| Submissions.AllowedExtensions | backend/src/submissions.ts:18-19 | the two extension lists hold exactly ".py", ".c", ".cpp" and ".txt" |
| Submissions.AcceptedSolutionLanguage | backend/src/submissions.ts:18-28 | an accepted solution whose name holds '.' is classified as the language of its extension, never by the fallback |
| Submissions.DotlessSolution | backend/src/submissions.ts:20 | a solution named just "c" passes the filter as ".c" but is classified as python |
| Submissions.CppAliasesRefused | backend/src/submissions.ts:18-22 | for any dot-free base name, `.cc` and `.cxx` files are refused by the filter although the classifier calls them cpp |
| Submissions.ParseUserFromCookie | backend/src/submissions.ts:174-185 | a parsed user has a non-empty name and id |
| Submissions.CookieAccepted | backend/src/submissions.ts:174-185 | a cookie names a user exactly when it starts with "user:" followed by a character other than ':' |
| Submissions.CookieUser | backend/src/submissions.ts:174-185 | the parsed name follows "user:" in the token and has no ':'; the id is the name, or starts with the name and '-' |
| Submissions.LoginToken | backend/src/controllers/authController.ts:25 | the token the login writes starts with "user:", the name and ':'; LoginTokenRoundTrip parses it back |
| Submissions.LoginTokenRoundTrip | backend/src/controllers/authController.ts:25 | the login token for a ':'-free name parses back to that name, with id `name-nonce`, or just the name when the nonce is empty |
| Submissions.Hyphenate | backend/src/submissions.ts:190 | the replacement leaves only [a-z0-9] and '-', with no two '-' in a row |
| Submissions.HyphenateSlugPrefix | backend/src/submissions.ts:190 | characters from [a-z0-9] pass through the replacement unchanged |
| Submissions.LeadingDashes | backend/src/submissions.ts:191 | the count of '-' that open the text, followed by a character that is not '-' |
| Submissions.TrailingDashes | backend/src/submissions.ts:191 | the count of '-' that close the text, preceded by a character that is not '-' |
| Submissions.SlugShape | backend/src/submissions.ts:187-194 | the slug has at most 40 characters from [a-z0-9-], no "--" and no leading '-' |
| Submissions.StripShape | backend/src/submissions.ts:191 | stripping the dashes keeps a slug text and leaves no leading '-' |
| Submissions.BuildUserId | backend/src/submissions.ts:187-194 | the user id is never empty |
| Submissions.Slug | backend/src/submissions.ts:188-192 | the slug is at most 40 characters; SlugShape gives its characters |
| Submissions.BuildUserIdForm | backend/src/submissions.ts:193 | the id is "anonymous" exactly for an empty slug, and otherwise "user-" and the slug, at most 45 characters |
| Submissions.PlainUsername | backend/src/submissions.ts:187-194 | a name of 1 to 40 letters and digits becomes "user-" and its lowercase |
| Submissions.CutSlugEndsWithDash | backend/src/submissions.ts:192 | cutting at 40 can leave a trailing '-': 39 slug characters and " b" give those characters and '-' |
| Submissions.ResolvePrecedence | backend/src/submissions.ts:152-172 | a parsed cookie wins; else a non-blank form username is used trimmed, with the trimmed form id or the slug id; else anonymous/anonymous; name and id are never empty |
| Submissions.ResolveSubmissionUser | backend/src/submissions.ts:152-172 | the resolved user always has a non-empty name and id; ResolvePrecedence gives the order |
| Submissions.PartsMessage | backend/src/submissions.ts:75-78 | pushing the selected parts and joining them with " & " gives "Part 1 & Part 2", "Part 1", "Part 2" or "No parts selected" |
| Submissions.PartsText | backend/src/submissions.ts:75-78 | the message is one of "Part 1 & Part 2", "Part 1", "Part 2" and "No parts selected"; PartsTextDistinct makes each selection its own |
| Submissions.PartsTextDistinct | backend/src/submissions.ts:75-78 | each selection of parts gets its own message |
| Submissions.InitialEntry | backend/src/submissions.ts:99-112 | the entry before execution has rank, time, memory and line count -1, and a supported language |
| Submissions.HandleSubmissionChecks | backend/src/submissions.ts:47-72 | the handler submits exactly when both files are present, 1 <= day <= 25 and 2015 <= year <= 2100; otherwise it answers with one of its four errors, the missing solution first |
| Submissions.HandleSubmission | backend/src/submissions.ts:39-142 | the handler stores an entry only when both files are present and the day and year are valid; HandleSubmissionChecks and SubmittedEntry give the rest |
| Submissions.SubmittedEntry | backend/src/submissions.ts:98-124 | a stored entry keeps the form fields and the resolved user with rank -1, runs as the language of the file name, counts the solution's lines, and takes time and memory from a completed run, or -1 for both from a failed one |
| Leaderboard.LowerEqual | aoc_leader/src/api/leaderboard.ts:56 | comparing lowercased texts is equality up to case, character by character |
| Leaderboard.KeepCriteria | aoc_leader/src/api/leaderboard.ts:51-66 | an entry is kept exactly when it has the truthy year and day and, up to case, the truthy language and username |
| Leaderboard.Keep | aoc_leader/src/api/leaderboard.ts:51-66 | the filter predicate keeps every entry when no criterion is truthy; KeepCriteria states it in full |
| Leaderboard.FilterEntries | aoc_leader/src/api/leaderboard.ts:50-67 | the filter never lengthens the list; FilterSublist and FilterMembers say which entries stay |
| Leaderboard.FilterSampleEntries | aoc_leader/src/api/leaderboard.ts:50-67 | `filterSampleEntries` returns at most the sample rows; SampleLookup gives the demo row's cases |
| Leaderboard.FilterSublist | aoc_leader/src/api/leaderboard.ts:50-67 | the result is an order-preserving sublist of the input |
| Leaderboard.FilterMembers | aoc_leader/src/api/leaderboard.ts:50-67 | an entry is in the result exactly when it is in the input and kept |
| Leaderboard.FilterIdempotent | aoc_leader/src/api/leaderboard.ts:50-67 | filtering twice with the same filters is filtering once |
| Leaderboard.FilterNarrows | aoc_leader/src/api/leaderboard.ts:50-67 | adding criteria never brings an entry back |
| Leaderboard.FilterUnset | aoc_leader/src/api/leaderboard.ts:50-67 | without a truthy year, day, language or username every entry is kept |
| Leaderboard.FilterIgnoresPaging | aoc_leader/src/api/leaderboard.ts:50-67 | limit and cursor never change the sample filter |
| Leaderboard.SampleLookup | aoc_leader/src/api/leaderboard.ts:4-19 | the demo row matches its own year, day, language and user in any case, and the empty filters; another year removes it |
| Leaderboard.SetAppends | aoc_leader/src/api/leaderboard.ts:71-76 | `set` on a name not yet present appends the pair |
| Leaderboard.SetPairs | aoc_leader/src/api/leaderboard.ts:71-76 | after `set` the name is present; SetSemantics gives the rest of the URL Standard's `set` |
| Leaderboard.SetSemantics | aoc_leader/src/api/leaderboard.ts:71-76 | after `set` the name has exactly one pair with the new value, other names read as before, and the other pairs keep their order |
| Leaderboard.SetGets | aoc_leader/src/api/leaderboard.ts:71-76 | after `set` the name reads the new value and every other name reads as before |
| Leaderboard.SetKeyOnce | aoc_leader/src/api/leaderboard.ts:71-76 | after `set` the name occurs exactly once |
| Leaderboard.SetWithout | aoc_leader/src/api/leaderboard.ts:71-76 | apart from the pair of that name, `set` keeps the pairs in order |
| Leaderboard.SearchParams.constructor | aoc_leader/src/api/leaderboard.ts:70 | a new parameter list is empty |
| Leaderboard.SearchParams.Set | aoc_leader/src/api/leaderboard.ts:71 | `set` replaces the object's pairs by the proved `set` semantics |
| Leaderboard.QueryFieldNames | aoc_leader/src/api/leaderboard.ts:71-76 | the fields are looked at under the distinct names year, day, language, username, limit, cursor, in that order |
| Leaderboard.BuildStep | aoc_leader/src/api/leaderboard.ts:71-76 | each guarded `set` extends the pairs of the fields before it by the pair of its field when truthy |
| Leaderboard.SetFirstPrefix | aoc_leader/src/api/leaderboard.ts:71-76 | the first `k` guarded `set` calls give the pairs of the truthy fields among the first `k` |
| Leaderboard.ChainIsQuery | aoc_leader/src/api/leaderboard.ts:69-78 | the six guarded `set` calls give the pairs of the truthy fields, in order |
| Leaderboard.BuildQuery | aoc_leader/src/api/leaderboard.ts:69-78 | `buildQuery` returns a fresh parameter list whose pairs are those of the truthy fields, in order |
| Leaderboard.QueryOrderKept | aoc_leader/src/api/leaderboard.ts:69-78 | each name appears at most once, in the order year, day, language, username, limit, cursor |
| Leaderboard.QueryValues | aoc_leader/src/api/leaderboard.ts:69-78 | each name is present exactly when its field is truthy, with the field's text (numbers as `toString()`) |
| Leaderboard.QueryEmpty | aoc_leader/src/api/leaderboard.ts:69-78 | the query has no parameters exactly when no field is truthy |
| Leaderboard.QueryPairs | aoc_leader/src/api/leaderboard.ts:69-78 | the query has at most the six parameters; QueryValues and QueryOrderKept give which and in what order |
| Leaderboard.HexDigit | aoc_leader/src/api/leaderboard.ts:84 | the serializer's hex digit is 0-9 or upper-case A-F |
| Leaderboard.HexRoundTrip | aoc_leader/src/api/leaderboard.ts:84 | a hex digit reads back as its value |
| Leaderboard.EncodeByte | aoc_leader/src/api/leaderboard.ts:84 | a byte is written as non-empty text without '&' or '=' |
| Leaderboard.FormEncode | aoc_leader/src/api/leaderboard.ts:84 | encoded bytes never contain '&' or '=' |
| Leaderboard.Utf8 | aoc_leader/src/api/leaderboard.ts:84 | one to four bytes, one exactly for ASCII, with the lead-byte range of its length and continuation bytes in 0x80..0xBF |
| Leaderboard.DecodeByte | aoc_leader/src/api/leaderboard.ts:84 | decoding one encoded byte followed by text decodes the byte, then the text |
| Leaderboard.FormRoundTrip | aoc_leader/src/api/leaderboard.ts:84 | decoding the form encoding of any bytes gives the bytes back |
| Leaderboard.PlainEncodes | aoc_leader/src/api/leaderboard.ts:84 | text of unreserved ASCII characters is written as it is |
| Leaderboard.NumberEncodes | aoc_leader/src/api/leaderboard.ts:71 | the decimal text of a number, minus sign included, is written into the query as it is |
| Leaderboard.EncodePairs | aoc_leader/src/api/leaderboard.ts:84 | each pair is written as its name and value joined by '=' |
| Leaderboard.DecodeEncodedPair | aoc_leader/src/api/leaderboard.ts:84 | one encoded pair decodes to the UTF-8 bytes of its name and value |
| Leaderboard.DecodeEncodedPairs | aoc_leader/src/api/leaderboard.ts:84 | a list of encoded pairs decodes to their UTF-8 bytes, in order |
| Leaderboard.SerializeEmpty | aoc_leader/src/api/leaderboard.ts:84-85 | `toString()` is empty exactly when there are no parameters |
| Leaderboard.Serialize | aoc_leader/src/api/leaderboard.ts:84 | `toString()` of a non-empty list starts with the encoded first pair; SerializeRoundTrip and SerializeEmpty state the whole text |
| Leaderboard.SearchParams.ToString | aoc_leader/src/api/leaderboard.ts:84 | the object's `toString()` starts with its encoded first pair; it is Serialize of its pairs |
| Leaderboard.SerializeRoundTrip | aoc_leader/src/api/leaderboard.ts:84 | the query text reads back as the UTF-8 bytes of every name and value, in order |
| Leaderboard.ApiBase | aoc_leader/src/api/leaderboard.ts:1-2 | the configured base, or "http://localhost:3001" when none is configured |
| Leaderboard.LeaderboardUrl | aoc_leader/src/api/leaderboard.ts:83-85 | the URL is the base and "/api/leaderboard", with "?" and the query only when some field is truthy |

## Left out

- The Docker lifecycle in `executeInContainer` (image pull, create, putArchive, attach, start, the timeout race, kill, wait, stats, remove) is Docker I/O and concurrency. The run is an `Outcome` parameter, and every way the lifecycle can throw is its `Failed` case.
- Stream demultiplexing is done by the Docker library and is not part of this model. So is the input archive `input.txt`, which is the same `createTarStream` on other bytes.
- `streamToString` is unused stream I/O.
- The rounding of `memoryUsageKb` is floating-point division. The memory figure comes from the `Outcome`.
- `EXECUTION_TIMEOUT_MS` and `MEMORY_LIMIT` only parameterise the container. They are not modelled.
- Wall-clock timing and the tar modification time come from `Date.now()`. They are parameters (`nowMs`, `now`, the `Outcome`'s time).
- Buffer decoding is left out: the solution is the UTF-8-decoded text, given as a string. `header.write` of a file name is modelled for ASCII names only (`Tar.Ascii`), which covers the three names the runner uses.
- `Strings.LowerChar`: `toLowerCase` is modelled on ASCII letters only. Unicode case mapping is not modelled.
- Leaderboard.Filters: the year, day and limit filters are modelled as integers. The client fills them with `Number(...)` of a number input, so a fraction (2024.5, which drops every sample row and is sent as `year=2024.5`), NaN (falsy, so skipped) and the exponent form of `toString()` for magnitudes of 10^21 and more are not represented.
- Strings.IntToString: a JavaScript number prints in exponent form from 10^21 on; Dafny integers are unbounded and always print as a plain decimal numeral.
- `Number()` coercion of the form's day and year (NaN, fractions, non-finite values) is left out. The checks are modelled on integers already parsed.
- These are HTTP plumbing and are not modelled:
  - Express, multer and the cookie parser;
  - the 1 MB `fileSize` limit;
  - the JSON response bodies beyond the message;
  - the 500 answer of the catch block;
  - the submission log lines.
- `insertLeaderboardEntry` is an empty stub and the database is not part of this model.
- backend/src/controllers/authController.ts is not modelled apart from the token format it writes (`Submissions.LoginToken`).
- `fetchLeaderboard`'s response handling (the 404 and catch fallbacks to the sample, the JSON shapes) is network I/O. Only the URL it requests and the sample filter are modelled.
- The React components and hooks are UI and are not part of this model.
- `Leaderboard.Utf8`: JavaScript strings may hold lone surrogates, which `URLSearchParams` replaces by U+FFFD. Dafny characters are Unicode scalar values, so that case does not arise in the model.
- `Leaderboard.FormDecode` is the inverse of the serializer only. It refuses text the serializer cannot produce, where the WHATWG parser would be lenient. UTF-8 decoding is not modelled, so the round trips stop at the UTF-8 bytes of the names and values.
- `Leaderboard.SearchParams.Set` has the URL Standard's `set` semantics over a list of pairs. `append`, `get` on the object and sorting are not used by the source and are not modelled.
- `Tar.Extract` reads the first member only. It checks the checksum and the size field, and it ignores the mode, ids, time and type fields, which `Tar.HeaderFixed` and `Tar.HeaderFields` pin down instead.
