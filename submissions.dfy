/**
 * The submission endpoint's own logic: the upload filter on file extensions, the
 * language read from the solution's file name, the user taken from the login
 * cookie or the form, the user-id slug, the day and year checks, the parts
 * message and the leaderboard entry handed to the runner.
 */
module Submissions {
  import opened Wrappers
  import opened Strings
  import opened LineCount
  import opened Runner

  // ---------------------------------------------------------------- file names

  /** `detectLanguageFromFilename`: the lowercased name's suffix, C++ before C, python otherwise. */
  function DetectLanguageFromFilename(name: string): (r: string)
    ensures Supported(r)
  {
    var lower := Lower(name);
    if EndsWith(lower, ".py") then "python"
    else if EndsWith(lower, ".cpp") || EndsWith(lower, ".cc") || EndsWith(lower, ".cxx") then "cpp"
    else if EndsWith(lower, ".c") then "c"
    else "python"
  }

  /**
   * The suffixes decide the language on their own: none of them can end the same
   * name as another, so the order of the tests does not matter.
   */
  lemma FilenameSuffixes(name: string)
    ensures var lower, r := Lower(name), DetectLanguageFromFilename(name);
      && (r == "cpp" <==> EndsWith(lower, ".cpp") || EndsWith(lower, ".cc") || EndsWith(lower, ".cxx"))
      && (r == "c" <==> EndsWith(lower, ".c"))
      && (r == "python" <==> EndsWith(lower, ".py") || !(EndsWith(lower, ".cpp") || EndsWith(lower, ".cc")
                                                         || EndsWith(lower, ".cxx") || EndsWith(lower, ".c")))
  {
    var l := Lower(name);
    var n := |l|;
    if EndsWith(l, ".py") { assert l[n - 1] == 'y'; }
    if EndsWith(l, ".cpp") { assert l[n - 1] == 'p'; }
    if EndsWith(l, ".cc") { assert l[n - 2] == 'c'; }
    if EndsWith(l, ".cxx") { assert l[n - 1] == 'x'; }
    if EndsWith(l, ".c") { assert l[n - 1] == 'c' && l[n - 2] == '.'; }
  }

  /**
   * For a name holding a '.', the suffix test reads the last dot-segment as the
   * runner's `detectLanguage` does (with a mimetype that does not say python).
   */
  lemma FilenameAgreesWithRunner(name: string)
    requires '.' in name
    ensures DetectLanguageFromFilename(name) == DetectLanguage(name, "")
  {
    var last := Last(Split(name, '.'));
    var seg := Lower(last);
    LastAfterSep(name, '.');
    LowerSuffix(name, ['.'] + last);
    assert Lower(['.'] + last) == ['.'] + seg;
    LowerKeepsSeparator(last, '.');
    assert '.' !in seg;
    SuffixLanguage(Lower(name), seg);
    assert !Contains("", "python");
  }

  /** The suffix tests on a name that ends in '.' and a dot-free `seg` are tests on `seg`. */
  lemma SuffixLanguage(lower: string, seg: string)
    requires EndsWith(lower, ['.'] + seg) && '.' !in seg
    ensures EndsWith(lower, ".py") <==> seg == "py"
    ensures EndsWith(lower, ".cpp") <==> seg == "cpp"
    ensures EndsWith(lower, ".cc") <==> seg == "cc"
    ensures EndsWith(lower, ".cxx") <==> seg == "cxx"
    ensures EndsWith(lower, ".c") <==> seg == "c"
  {
    assert ".py" == ['.'] + "py" && ".cpp" == ['.'] + "cpp" && ".cc" == ['.'] + "cc";
    assert ".cxx" == ['.'] + "cxx" && ".c" == ['.'] + "c";
    SegmentSuffix(lower, seg, "py", '.');
    SegmentSuffix(lower, seg, "cpp", '.');
    SegmentSuffix(lower, seg, "cc", '.');
    SegmentSuffix(lower, seg, "cxx", '.');
    SegmentSuffix(lower, seg, "c", '.');
  }

  /** What the upload filter decides for one file. */
  datatype Verdict = Accept | Reject(error: string)

  /** The extension the filter compares: "." and the lowercased last dot-segment. */
  function UploadExtension(originalname: string): string
  {
    "." + Lower(Last(Split(originalname, '.')))
  }

  /** The multer `fileFilter`: solutions are .py/.c/.cpp, inputs .txt, anything else is refused. */
  function FileFilter(fieldname: string, originalname: string): (r: Verdict)
    ensures r.Reject? ==> r.error == "Invalid file type"
  {
    var ext := UploadExtension(originalname);
    if fieldname == "file" && ext in [".py", ".c", ".cpp"] then Accept
    else if fieldname == "input" && ext in [".txt"] then Accept
    else Reject("Invalid file type")
  }

  /** The filter accepts by field and last dot-segment, and refuses with the one message. */
  lemma FileFilterRule(fieldname: string, originalname: string)
    ensures var seg, r := Lower(Last(Split(originalname, '.'))), FileFilter(fieldname, originalname);
      && (r.Accept? <==> (fieldname == "file" && (seg == "py" || seg == "c" || seg == "cpp"))
                         || (fieldname == "input" && seg == "txt"))
      && (r.Reject? ==> r.error == "Invalid file type")
  {
    var seg := Lower(Last(Split(originalname, '.')));
    var ext := UploadExtension(originalname);
    assert ext == "." + seg;
    AllowedExtensions(seg);
  }

  /** The allowed lists of the filter, read as last dot-segments. */
  lemma AllowedExtensions(seg: string)
    ensures "." + seg in [".py", ".c", ".cpp"] <==> seg == "py" || seg == "c" || seg == "cpp"
    ensures "." + seg in [".txt"] <==> seg == "txt"
  {
    DotExtension(seg, "py");
    DotExtension(seg, "c");
    DotExtension(seg, "cpp");
    DotExtension(seg, "txt");
    assert ".py" == "." + "py" && ".c" == "." + "c" && ".cpp" == "." + "cpp" && ".txt" == "." + "txt";
  }

  lemma DotExtension(seg: string, ext: string)
    ensures "." + seg == "." + ext <==> seg == ext
  {
    if "." + seg == "." + ext {
      assert seg == ("." + seg)[1..];
    }
  }

  /** An accepted solution whose name holds a '.' runs as the language of its extension. */
  lemma AcceptedSolutionLanguage(originalname: string)
    requires FileFilter("file", originalname).Accept? && '.' in originalname
    ensures var seg := Lower(Last(Split(originalname, '.')));
      DetectLanguageFromFilename(originalname) == (if seg == "py" then "python" else seg)
  {
    FileFilterRule("file", originalname);
    FilenameAgreesWithRunner(originalname);
  }

  /** A solution named just "c" has no dot, passes the filter as ".c", and is classified as python. */
  lemma DotlessSolution()
    ensures FileFilter("file", "c").Accept?
    ensures DetectLanguageFromFilename("c") == "python"
  {
    SplitNoSep("c", '.');
    assert UploadExtension("c") == ".c";
  }

  /**
   * Names ending in ".cc" or ".cxx" are C++ to the classifier, but the upload
   * filter refuses them.
   */
  lemma CppAliasesRefused(base: string)
    requires '.' !in base
    ensures FileFilter("file", base + ".cc") == Reject("Invalid file type")
    ensures DetectLanguageFromFilename(base + ".cc") == "cpp"
    ensures FileFilter("file", base + ".cxx") == Reject("Invalid file type")
    ensures DetectLanguageFromFilename(base + ".cxx") == "cpp"
  {
    CppAliasRefused(base, ".cc");
    CppAliasRefused(base, ".cxx");
  }

  /** One of the two C++ extensions the filter does not list. */
  lemma CppAliasRefused(base: string, ext: string)
    requires '.' !in base && (ext == ".cc" || ext == ".cxx")
    ensures FileFilter("file", base + ext) == Reject("Invalid file type")
    ensures DetectLanguageFromFilename(base + ext) == "cpp"
  {
    var seg := ext[1..];
    assert ext == ['.'] + seg;
    assert seg == "cc" || seg == "cxx";
    assert forall i :: 0 <= i < |seg| ==> seg[i] == 'c' || seg[i] == 'x';
    LowerNoUpper(seg);
    DottedExtension(base, seg);
    assert UploadExtension(base + ext) == ext;
    assert |ext| > 2 && ext[1] == 'c' && (|ext| == 4 ==> ext[2] == 'x');
    assert ext !in [".py", ".c", ".cpp"];
    CppAliasClassified(base, seg);
  }

  /** The classifier's suffix tests on `base.seg` are tests on `seg`. */
  lemma CppAliasClassified(base: string, seg: string)
    requires '.' !in seg && Lower(seg) == seg && (seg == "cc" || seg == "cxx")
    ensures DetectLanguageFromFilename(base + (['.'] + seg)) == "cpp"
  {
    var name, dotted := base + (['.'] + seg), ['.'] + seg;
    assert name[|name| - |dotted|..] == dotted;
    LowerSuffix(name, dotted);
    assert Lower(dotted) == [LowerChar('.')] + Lower(seg);
    SuffixLanguage(Lower(name), seg);
  }

  /** The extension the filter sees in `base.ext`, for a dot-free base and extension. */
  lemma DottedExtension(base: string, ext: string)
    requires '.' !in base && '.' !in ext
    ensures UploadExtension(base + (['.'] + ext)) == ['.'] + Lower(ext)
  {
    SplitConcat(base, ext, '.');
    SplitNoSep(ext, '.');
  }

  // ---------------------------------------------------------------- users

  /** Who a submission is credited to. */
  datatype User = User(userId: string, username: string)

  /**
   * `parseUserFromCookie`: the token's ':'-segments are prefix, username and nonce;
   * a missing or empty token, another prefix or an empty username give no user.
   * A segment that is absent reads as the empty string, which JavaScript treats as
   * falsy like `undefined`.
   */
  function ParseUserFromCookie(token: Option<string>): (r: Option<User>)
    ensures r.Some? ==> r.value.username != [] && r.value.userId != []
  {
    if token.None? || token.value == [] then None
    else
      var pieces := Split(token.value, ':');
      var username := if |pieces| > 1 then pieces[1] else "";
      var nonce := if |pieces| > 2 then pieces[2] else "";
      if pieces[0] != "user" || username == [] then None
      else Some(User(if nonce != [] then username + "-" + nonce else username, username))
  }

  /** The token the login handler sets: `user:<username>:<nonce>`. */
  function LoginToken(username: string, nonce: string): (r: string)
    ensures StartsWith(r, "user:" + username + ":")
  {
    "user:" + username + ":" + nonce
  }

  /**
   * A cookie names a user exactly when it starts with "user:" followed by a character
   * other than ':'; that user's name then follows "user:" and has no ':'.
   */
  lemma CookieAccepted(token: Option<string>)
    ensures ParseUserFromCookie(token).Some? <==>
      token.Some? && StartsWith(token.value, "user:") && |token.value| > 5 && token.value[5] != ':'
  {
    if token.Some? && token.value != [] {
      var t := token.value;
      var pieces := Split(t, ':');
      if pieces[0] == "user" && |pieces| > 1 && pieces[1] != [] {
        CookiePieces(t);
      }
      if StartsWith(t, "user:") && |t| > 5 && t[5] != ':' {
        var rest := t[5..];
        assert t == "user" + ([':'] + rest);
        SplitConcat("user", rest, ':');
        assert Split(t, ':') == ["user"] + Split(rest, ':');
        assert Split(rest, ':')[0] == [rest[0]] + Split(rest[1..], ':')[0];
      }
    }
  }

  /** How the first two pieces of a split sit in the text. */
  lemma CookiePieces(t: string)
    requires |Split(t, ':')| > 1
    ensures var pieces := Split(t, ':');
      StartsWith(t, pieces[0] + ":" + pieces[1])
  {
    var pieces := Split(t, ':');
    JoinSplit(t, ':');
    var tail := Join(pieces[1..], [':']);
    assert t == pieces[0] + ":" + tail;
    if |pieces| > 2 {
      assert tail == pieces[1] + ":" + Join(pieces[2..], [':']);
    } else {
      assert pieces[1..] == [pieces[1]];
    }
    var p := pieces[0] + ":" + pieces[1];
    assert t[..|p|] == p;
  }

  /** A parsed user's name follows "user:" in the token, has no ':', and begins the user id. */
  lemma CookieUser(token: Option<string>)
    ensures ParseUserFromCookie(token).Some? ==>
      var u := ParseUserFromCookie(token).value;
      StartsWith(token.value, "user:" + u.username) && ':' !in u.username
      && (u.userId == u.username || StartsWith(u.userId, u.username + "-"))
  {
    if ParseUserFromCookie(token).Some? {
      var t := token.value;
      var pieces := Split(t, ':');
      CookiePieces(t);
      assert pieces[0] + ":" + pieces[1] == "user:" + pieces[1];
      var nonce := if |pieces| > 2 then pieces[2] else "";
      var id := pieces[1] + "-" + nonce;
      assert id[..|pieces[1]| + 1] == pieces[1] + "-";
    }
  }

  /** The login token of a ':'-free name parses back to that name, with the nonce in the id. */
  lemma LoginTokenRoundTrip(username: string, nonce: string)
    requires username != [] && ':' !in username && ':' !in nonce
    ensures ParseUserFromCookie(Some(LoginToken(username, nonce)))
      == Some(User(if nonce != [] then username + "-" + nonce else username, username))
  {
    var parts := ["user", username, nonce];
    assert Join(parts, [':']) == LoginToken(username, nonce) by {
      assert Join(parts[1..], [':']) == username + ":" + nonce by {
        assert parts[1..][1..] == [nonce];
      }
    }
    SplitJoin(parts, ':');
  }

  /** The characters a slug keeps: `[a-z0-9]`. */
  predicate IsSlugChar(c: char)
  {
    'a' <= c <= 'z' || '0' <= c <= '9'
  }

  /**
   * `.replace(/[^a-z0-9]+/g, "-")`: each maximal run of other characters becomes one
   * '-'; `inRun` says the character before `s` belonged to such a run.
   */
  function Hyphenate(s: string, inRun: bool): (r: string)
    ensures forall i :: 0 <= i < |r| ==> IsSlugChar(r[i]) || r[i] == '-'
    ensures forall i :: 0 <= i < |r| - 1 ==> r[i] != '-' || r[i + 1] != '-'
    ensures inRun && r != [] ==> r[0] != '-'
    decreases |s|
  {
    if s == [] then []
    else if IsSlugChar(s[0]) then [s[0]] + Hyphenate(s[1..], false)
    else if inRun then Hyphenate(s[1..], true)
    else "-" + Hyphenate(s[1..], true)
  }

  /** Slug characters pass through the replacement unchanged. */
  lemma {:induction false} HyphenateSlugPrefix(w: string, rest: string, inRun: bool)
    requires forall i :: 0 <= i < |w| ==> IsSlugChar(w[i])
    ensures Hyphenate(w + rest, inRun) == w + Hyphenate(rest, inRun && w == [])
    decreases |w|
  {
    if w != [] {
      var x := w + rest;
      assert x[0] == w[0] && IsSlugChar(x[0]);
      assert x[1..] == w[1..] + rest;
      assert Hyphenate(x, inRun) == [w[0]] + Hyphenate(w[1..] + rest, false);
      HyphenateSlugPrefix(w[1..], rest, false);
      assert Hyphenate(w[1..] + rest, false) == w[1..] + Hyphenate(rest, false);
      assert w == [w[0]] + w[1..];
    } else {
      assert w + rest == rest;
    }
  }

  /** The number of '-' characters that open `s`. */
  function LeadingDashes(s: string): (k: nat)
    ensures k <= |s|
    ensures forall i :: 0 <= i < k ==> s[i] == '-'
    ensures k < |s| ==> s[k] != '-'
  {
    if s != [] && s[0] == '-' then 1 + LeadingDashes(s[1..]) else 0
  }

  /** The number of '-' characters that close `s`. */
  function TrailingDashes(s: string): (k: nat)
    ensures k <= |s|
    ensures forall i :: |s| - k <= i < |s| ==> s[i] == '-'
    ensures k < |s| ==> s[|s| - k - 1] != '-'
  {
    if s != [] && s[|s| - 1] == '-' then 1 + TrailingDashes(s[..|s| - 1]) else 0
  }

  /** `.replace(/^-+|-+$/g, "")`: the leading and the trailing dashes removed. */
  function StripDashes(s: string): string
  {
    var t := s[LeadingDashes(s)..];
    t[..|t| - TrailingDashes(t)]
  }

  /** The slug of `buildUserId`: lowercased, runs replaced, dashes stripped, cut to 40. */
  function Slug(username: string): (r: string)
    ensures |r| <= 40
  {
    var s := StripDashes(Hyphenate(Lower(username), false));
    s[..if |s| < 40 then |s| else 40]
  }

  /** `buildUserId`: "user-" and the slug, or "anonymous" when the slug is empty. */
  function BuildUserId(username: string): (r: string)
    ensures r != []
  {
    var slug := Slug(username);
    if slug != [] then "user-" + slug else "anonymous"
  }

  /** Characters from [a-z0-9-] with no "--". */
  predicate SlugText(s: string)
  {
    && (forall i :: 0 <= i < |s| ==> IsSlugChar(s[i]) || s[i] == '-')
    && (forall i :: 0 <= i < |s| - 1 ==> s[i] != '-' || s[i + 1] != '-')
  }

  /** A slug has at most 40 characters from [a-z0-9-], no "--" and no leading '-'. */
  lemma SlugShape(username: string)
    ensures var slug := Slug(username);
      |slug| <= 40 && SlugText(slug) && (slug != [] ==> slug[0] != '-')
  {
    var h := Hyphenate(Lower(username), false);
    var s := StripDashes(h);
    StripShape(h);
    var n := if |s| < 40 then |s| else 40;
    SliceShape(s, 0, n);
    assert Slug(username) == s[0..n];
  }

  /** Stripping the dashes of a slug text leaves a slug text that does not open with '-'. */
  lemma StripShape(h: string)
    requires SlugText(h)
    ensures SlugText(StripDashes(h)) && (StripDashes(h) != [] ==> StripDashes(h)[0] != '-')
  {
    var a := LeadingDashes(h);
    var t := h[a..];
    var s := t[..|t| - TrailingDashes(t)];
    assert s == StripDashes(h);
    assert s == h[a..a + |s|];
    SliceShape(h, a, a + |s|);
    if s != [] {
      assert s[0] == h[a];
    }
  }

  /** A slice of a slug text is a slug text. */
  lemma SliceShape(h: string, lo: nat, hi: nat)
    requires lo <= hi <= |h| && SlugText(h)
    ensures SlugText(h[lo..hi])
  {
    var w := h[lo..hi];
    forall i | 0 <= i < |w| ensures IsSlugChar(w[i]) || w[i] == '-' {
      assert w[i] == h[lo + i];
    }
    forall i | 0 <= i < |w| - 1 ensures w[i] != '-' || w[i + 1] != '-' {
      assert w[i] == h[lo + i] && w[i + 1] == h[lo + i + 1];
    }
  }

  /** The user id is "anonymous" exactly for an empty slug, and otherwise "user-" and the slug. */
  lemma BuildUserIdForm(username: string)
    ensures var r := BuildUserId(username);
      && (r == "anonymous" <==> Slug(username) == [])
      && (r != "anonymous" ==> StartsWith(r, "user-") && r[5..] == Slug(username) && |r| <= 45)
  {
    SlugShape(username);
    var r := BuildUserId(username);
    if Slug(username) != [] {
      assert r[0] == 'u' != "anonymous"[0];
      assert r[..5] == "user-";
    }
  }

  /** A name of at most 40 letters and digits becomes "user-" and its lowercase. */
  lemma PlainUsername(username: string)
    requires 0 < |username| <= 40
    requires forall i :: 0 <= i < |username| ==>
      'a' <= username[i] <= 'z' || 'A' <= username[i] <= 'Z' || '0' <= username[i] <= '9'
    ensures BuildUserId(username) == "user-" + Lower(username)
  {
    var l := Lower(username);
    LowerPlain(username);
    SlugCharsKept(l);
    SlugUncut(username);
    assert Slug(username) == l;
  }

  /** A slug of at most 40 characters is not cut. */
  lemma SlugUncut(username: string)
    requires |StripDashes(Hyphenate(Lower(username), false))| <= 40
    ensures Slug(username) == StripDashes(Hyphenate(Lower(username), false))
  {
  }

  lemma LowerPlain(username: string)
    requires forall i :: 0 <= i < |username| ==>
      'a' <= username[i] <= 'z' || 'A' <= username[i] <= 'Z' || '0' <= username[i] <= '9'
    ensures forall i :: 0 <= i < |username| ==> IsSlugChar(Lower(username)[i])
  {
    var l := Lower(username);
    forall i | 0 <= i < |l| ensures IsSlugChar(l[i]) {
      assert l[i] == LowerChar(username[i]);
    }
  }

  /** A non-empty text of slug characters is its own hyphenated, stripped form. */
  lemma SlugCharsKept(l: string)
    requires l != [] && forall i :: 0 <= i < |l| ==> IsSlugChar(l[i])
    ensures StripDashes(Hyphenate(l, false)) == l
  {
    HyphenateSlugPrefix(l, [], false);
    assert l + [] == l;
    assert IsSlugChar(l[0]) && IsSlugChar(l[|l| - 1]);
    StripUndashed(l);
  }

  /** A text that neither starts nor ends with '-' has no dashes to strip. */
  lemma StripUndashed(s: string)
    requires s != [] && s[0] != '-' && s[|s| - 1] != '-'
    ensures StripDashes(s) == s
  {
    assert LeadingDashes(s) == 0;
    assert s[0..] == s;
    assert TrailingDashes(s) == 0;
    assert s[..|s|] == s;
  }

  /** Cutting at 40 characters can leave a trailing '-': 39 slug characters and " b". */
  lemma CutSlugEndsWithDash(w: string)
    requires |w| == 39 && forall i :: 0 <= i < |w| ==> IsSlugChar(w[i])
    ensures Slug(w + " b") == w + "-"
  {
    var u := w + " b";
    var l := Lower(u);
    assert l == w + " b";
    HyphenateSlugPrefix(w, " b", false);
    assert Hyphenate(" b", false) == "-b" by {
      assert " b"[1..] == "b";
      assert Hyphenate("b", true) == "b";
    }
    var h := w + "-b";
    assert Hyphenate(l, false) == h;
    StripUndashed(h);
    assert h[..40] == w + "-";
  }

  /**
   * `resolveSubmissionUser`: the cookie's user when it parses; else the trimmed form
   * username with the trimmed form user id or its slug id; else anonymous. `None`
   * stands for a form value that is not a string.
   */
  function ResolveSubmissionUser(cookie: Option<string>, username: Option<string>, userId: Option<string>): (r: User)
    ensures r.username != [] && r.userId != []
  {
    match ParseUserFromCookie(cookie)
    case Some(user) => user
    case None =>
      var rawUsername := if username.Some? then Trim(username.value) else "";
      var rawUserId := if userId.Some? then Trim(userId.value) else "";
      if rawUsername != [] then
        User(if rawUserId != [] then rawUserId else BuildUserId(rawUsername), rawUsername)
      else User("anonymous", "anonymous")
  }

  /**
   * A parsed cookie wins; otherwise a non-blank form username is used trimmed, with
   * the trimmed user id or the slug id; otherwise anonymous. Name and id are never empty.
   */
  lemma ResolvePrecedence(cookie: Option<string>, username: Option<string>, userId: Option<string>)
    ensures var r := ResolveSubmissionUser(cookie, username, userId);
      && r.username != [] && r.userId != []
      && (ParseUserFromCookie(cookie).Some? ==> r == ParseUserFromCookie(cookie).value)
      && (ParseUserFromCookie(cookie).None? && username.Some? && !AllWhitespace(username.value) ==>
            r.username == Trim(username.value)
            && !IsWhitespace(r.username[0]) && !IsWhitespace(r.username[|r.username| - 1])
            && (userId.Some? && !AllWhitespace(userId.value) ==> r.userId == Trim(userId.value))
            && (userId.None? || AllWhitespace(userId.value) ==> r.userId == BuildUserId(r.username)))
      && (ParseUserFromCookie(cookie).None? && (username.None? || AllWhitespace(username.value)) ==>
            r == User("anonymous", "anonymous"))
  {
    if ParseUserFromCookie(cookie).None? && username.Some? {
      TrimSpec(username.value);
      if !AllWhitespace(username.value) {
        var u := Trim(username.value);
        assert u != [];
        if userId.Some? {
          TrimSpec(userId.value);
        }
      }
    }
  }

  // ---------------------------------------------------------------- the request

  /** The parts named in the success message. */
  function PartsText(part1: bool, part2: bool): (r: string)
    ensures r in ["Part 1 & Part 2", "Part 1", "Part 2", "No parts selected"]
  {
    if part1 && part2 then "Part 1 & Part 2"
    else if part1 then "Part 1"
    else if part2 then "Part 2"
    else "No parts selected"
  }

  /** `partsStr`: the selected parts pushed in order and joined with " & ". */
  method PartsMessage(part1: bool, part2: bool) returns (partsStr: string)
    ensures partsStr == PartsText(part1, part2)
  {
    var parts: seq<string> := [];
    if part1 {
      parts := parts + ["Part 1"];
    }
    if part2 {
      parts := parts + ["Part 2"];
    }
    if |parts| > 0 {
      partsStr := Join(parts, " & ");
      if part1 && part2 {
        assert parts == ["Part 1", "Part 2"] && parts[1..] == ["Part 2"];
        assert Join(parts[1..], " & ") == "Part 2";
        assert partsStr == "Part 1" + " & " + "Part 2";
      }
    } else {
      partsStr := "No parts selected";
    }
  }

  /** Each selection of parts has its own message. */
  lemma PartsTextDistinct(part1: bool, part2: bool, part1': bool, part2': bool)
    ensures PartsText(part1, part2) == PartsText(part1', part2') <==> part1 == part1' && part2 == part2'
  {
    var a, b := PartsText(part1, part2), PartsText(part1', part2');
    if a == b {
      assert |a| == |b|;
      assert a[0] == b[0];
      assert a[|a| - 1] == b[|b| - 1];
    }
  }

  /** The form fields the handler reads, already parsed; `username`/`userId` are `None` unless strings. */
  datatype Form = Form(day: int, year: int, part1: bool, part2: bool, username: Option<string>, userId: Option<string>)

  /** An uploaded file: its client name, its mimetype and its content as text. */
  datatype Upload = Upload(originalname: string, mimetype: string, text: string)

  /** The handler's answer: a 400 with its error, or the success message and the stored entry. */
  datatype Reply = BadRequest(error: string) | Submitted(message: string, entry: Entry)

  predicate ValidDay(day: int) { 1 <= day <= 25 }

  predicate ValidYear(year: int) { 2015 <= year <= 2100 }

  /** The entry as it stands before execution: -1 for rank and for every statistic. */
  function InitialEntry(user: User, originalname: string, form: Form, submittedAt: int): (e: Entry)
    ensures e.rank == -1 && e.executionTimeMs == -1 && e.memoryUsageKb == -1 && e.linesOfRelevantCode == -1
    ensures Supported(e.language)
  {
    Entry(-1, user.userId, user.username, form.year, form.day, form.part1, form.part2,
          DetectLanguageFromFilename(originalname), -1, -1, -1, submittedAt)
  }

  /** `Day <day> (<parts>) submitted successfully!` */
  function SuccessMessage(day: int, part1: bool, part2: bool): string
  {
    "Day " + IntToString(day) + " (" + PartsText(part1, part2) + ") submitted successfully!"
  }

  /**
   * `handleSubmission` from the uploaded files on: both files are required, then the
   * day and the year are checked, then the initial entry is run. `container` is the
   * outcome of the container run and `now` the submission time.
   */
  function HandleSubmission(solution: Option<Upload>, input: Option<Upload>, form: Form,
                            cookie: Option<string>, now: int, container: Outcome): (r: Reply)
    ensures r.Submitted? ==> solution.Some? && input.Some? && ValidDay(form.day) && ValidYear(form.year)
  {
    if solution.None? then BadRequest("No solution file uploaded")
    else if input.None? then BadRequest("No input file uploaded")
    else if !ValidDay(form.day) then BadRequest("Invalid day; must be between 1 and 25")
    else if !ValidYear(form.year) then BadRequest("Invalid year")
    else
      var user := ResolveSubmissionUser(cookie, form.username, form.userId);
      var entry := InitialEntry(user, solution.value.originalname, form, now);
      Submitted(SuccessMessage(form.day, form.part1, form.part2),
                RunSubmission(solution.value.text, entry, container))
  }

  /** The handler answers 400 exactly when a file is missing or the day or year is out of range. */
  lemma HandleSubmissionChecks(solution: Option<Upload>, input: Option<Upload>, form: Form,
                               cookie: Option<string>, now: int, container: Outcome)
    ensures HandleSubmission(solution, input, form, cookie, now, container).Submitted? <==>
      solution.Some? && input.Some? && ValidDay(form.day) && ValidYear(form.year)
    ensures var r := HandleSubmission(solution, input, form, cookie, now, container);
      r.BadRequest? ==> r.error in ["No solution file uploaded", "No input file uploaded",
                                    "Invalid day; must be between 1 and 25", "Invalid year"]
    ensures solution.None? ==>
      HandleSubmission(solution, input, form, cookie, now, container) == BadRequest("No solution file uploaded")
  {
  }

  /**
   * A stored entry keeps the form's fields and the resolved user with rank -1, runs
   * as the language of the solution's file name, and counts the solution's lines;
   * its time and memory are the run's, or -1 when the run failed.
   */
  lemma SubmittedEntry(solution: Upload, input: Upload, form: Form, cookie: Option<string>,
                       now: int, container: Outcome)
    requires ValidDay(form.day) && ValidYear(form.year)
    ensures var r := HandleSubmission(Some(solution), Some(input), form, cookie, now, container);
      var user, language := ResolveSubmissionUser(cookie, form.username, form.userId),
                            DetectLanguageFromFilename(solution.originalname);
      && r.Submitted?
      && r.message == SuccessMessage(form.day, form.part1, form.part2)
      && r.entry.rank == -1 && r.entry.userId == user.userId && r.entry.username == user.username
      && r.entry.year == form.year && r.entry.day == form.day
      && r.entry.part1Completed == form.part1 && r.entry.part2Completed == form.part2
      && r.entry.submittedAt == now
      && r.entry.language == language
      && 0 <= r.entry.linesOfRelevantCode == LinesOfCode(solution.text, language)
      && (container.Completed? ==>
            r.entry.executionTimeMs == container.result.executionTimeMs
            && r.entry.memoryUsageKb == container.result.memoryUsageKb)
      && (container.Failed? ==> r.entry.executionTimeMs == -1 && r.entry.memoryUsageKb == -1)
  {
    var user := ResolveSubmissionUser(cookie, form.username, form.userId);
    var entry := InitialEntry(user, solution.originalname, form, now);
    RunSubmissionResult(solution.text, entry, container);
    RunSubmissionLanguage(solution.text, entry, container);
  }
}
