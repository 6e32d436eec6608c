/**
 * The strings the downloader derives from one record:
 * `SubmittedCodesDownloader._get_output_file_path` (where the code is
 * saved) and `SubmittedCodesDownloader._get_submission_url` (where it is
 * read from).
 */
module Paths {
  import opened Wrappers
  import opened Decimal
  import opened Records
  import LongContestNumbers

  const Typical90: string := "typical90"
  const UrlPrefix: string := "https://atcoder.jp/contests/"
  const SubmissionsInfix: string := "/submissions/"

  // ---------------------------------------------------------------------------
  // `str.split(sep)` and the file name

  /** `s.split([sep])`: the pieces between separators, at least one, possibly empty. */
  function Split(s: string, sep: char): (parts: seq<string>)
    ensures |parts| >= 1
  {
    if s == [] then [""]
    else if s[0] == sep then [""] + Split(s[1..], sep)
    else
      var rest := Split(s[1..], sep);
      [[s[0]] + rest[0]] + rest[1..]
  }

  /** No piece of a split holds the separator. */
  lemma {:induction false} SplitPiecesHaveNoSep(s: string, sep: char)
    ensures forall i :: 0 <= i < |Split(s, sep)| ==> sep !in Split(s, sep)[i]
  {
    if s != [] {
      SplitPiecesHaveNoSep(s[1..], sep);
    }
  }

  /** `sep.join(parts)`. */
  function Join(parts: seq<string>, sep: char): string
    requires |parts| >= 1
  {
    if |parts| == 1 then parts[0] else parts[0] + [sep] + Join(parts[1..], sep)
  }

  /** Splitting and joining back gives the original string. */
  lemma {:induction false} JoinSplit(s: string, sep: char)
    ensures Join(Split(s, sep), sep) == s
  {
    if s != [] {
      JoinSplit(s[1..], sep);
      var rest := Split(s[1..], sep);
      if s[0] != sep && |rest| > 1 {
        assert Split(s, sep)[1..] == rest[1..];
      }
    }
  }

  /** `problem_id.split("_")[-1]`. */
  function FileStem(problemId: string): string {
    var parts := Split(problemId, '_');
    parts[|parts| - 1]
  }

  /**
   * The last piece of a split is the longest suffix without a separator: it
   * is a suffix, it holds no separator, and it is either the whole string or
   * preceded by a separator.
   */
  lemma {:induction false} LastPieceIsSuffix(s: string, sep: char)
    ensures var parts := Split(s, sep); var t := parts[|parts| - 1];
      && |t| <= |s| && s[|s| - |t|..] == t && sep !in t
      && (|t| < |s| ==> s[|s| - |t| - 1] == sep)
    ensures |Split(s, sep)| == 1 <==> sep !in s
  {
    SplitPiecesHaveNoSep(s, sep);
    if s != [] {
      LastPieceIsSuffix(s[1..], sep);
      var rest := Split(s[1..], sep);
      if s[0] != sep && |rest| == 1 {
        assert Split(s, sep) == [[s[0]] + rest[0]];
      }
    }
  }

  /** The file name is the part of the problem id after its last underscore. */
  lemma FileStemSpec(problemId: string)
    ensures var t := FileStem(problemId);
      && |t| <= |problemId| && problemId[|problemId| - |t|..] == t && '_' !in t
      && (|t| < |problemId| ==> problemId[|problemId| - |t| - 1] == '_')
    ensures '_' !in problemId ==> FileStem(problemId) == problemId
  {
    LastPieceIsSuffix(problemId, '_');
  }

  // ---------------------------------------------------------------------------
  // The extension

  /** The needle occurs in the haystack at position i. */
  predicate OccursAt(hay: string, needle: string, i: int) {
    0 <= i && i + |needle| <= |hay| && hay[i..i + |needle|] == needle
  }

  /** Python's `needle in hay` on strings. */
  function Contains(hay: string, needle: string): bool {
    if needle <= hay then true
    else if hay == [] then false
    else Contains(hay[1..], needle)
  }

  /** The needle is in the haystack exactly when it occurs at some position. */
  lemma {:induction false} ContainsSpec(hay: string, needle: string)
    ensures Contains(hay, needle) <==> exists i :: OccursAt(hay, needle, i)
  {
    if needle <= hay {
      assert OccursAt(hay, needle, 0);
    } else if hay != [] {
      ContainsSpec(hay[1..], needle);
      assert forall i :: OccursAt(hay[1..], needle, i) ==> OccursAt(hay, needle, i + 1);
      assert forall i :: OccursAt(hay, needle, i) ==> i == 0 || OccursAt(hay[1..], needle, i - 1);
    }
  }

  /** The file extension guessed from the language label, tested in this order. */
  function Extension(language: string): string {
    if Contains(language, "Py") then "py"
    else if Contains(language, "Rust") then "rs"
    else if Contains(language, "C++") then "cpp"
    else ""
  }

  /** The label mentions the marker somewhere. */
  ghost predicate Mentions(language: string, marker: string) {
    exists i :: OccursAt(language, marker, i)
  }

  /**
   * The extension is one of the three known ones or empty; each is chosen
   * exactly when its marker occurs in the label and no earlier marker does.
   */
  lemma ExtensionSpec(language: string)
    ensures Extension(language) in {"py", "rs", "cpp", ""}
    ensures Extension(language) == "py" <==> Mentions(language, "Py")
    ensures Extension(language) == "rs" <==> !Mentions(language, "Py") && Mentions(language, "Rust")
    ensures Extension(language) == "cpp" <==>
              !Mentions(language, "Py") && !Mentions(language, "Rust") && Mentions(language, "C++")
    ensures Extension(language) == "" <==>
              !Mentions(language, "Py") && !Mentions(language, "Rust") && !Mentions(language, "C++")
  {
    ContainsSpec(language, "Py");
    ContainsSpec(language, "Rust");
    ContainsSpec(language, "C++");
  }

  // ---------------------------------------------------------------------------
  // The output path

  /** The typical90 lookup finds the file name in the table (otherwise the source raises KeyError). */
  predicate PathDefined(numbers: map<string, string>, s: Submission) {
    s.contestId == Typical90 ==> FileStem(s.problemId) in numbers
  }

  /** The file name: the stem, renumbered through the table for typical90. */
  function FileName(numbers: map<string, string>, s: Submission): string
    requires PathDefined(numbers, s)
  {
    var stem := FileStem(s.problemId);
    if s.contestId == Typical90 then numbers[stem] else stem
  }

  /** `_get_output_file_path`: `{output_dir}/{contest_id}/{file_name}.{file_extension}`. */
  function OutputFilePath(outputDir: string, numbers: map<string, string>, s: Submission): string
    requires PathDefined(numbers, s)
  {
    outputDir + "/" + s.contestId + "/" + FileName(numbers, s) + "." + Extension(s.language)
  }

  /**
   * With the downloader's table, a typical90 record has a path exactly when
   * its file stem is a letter code below 201, and its file name is then the
   * three-digit number of that code.
   */
  lemma Typical90FileName(s: Submission)
    requires s.contestId == Typical90
    ensures PathDefined(LongContestNumbers.NumberTable(), s) <==>
              LongContestNumbers.KeyIndex(FileStem(s.problemId)).Some? &&
              LongContestNumbers.KeyIndex(FileStem(s.problemId)).value < LongContestNumbers.MaxProblemPerContest
    ensures PathDefined(LongContestNumbers.NumberTable(), s) ==>
              var name := FileName(LongContestNumbers.NumberTable(), s);
              |name| == 3 && IsDigits(name) &&
              Value(name) == LongContestNumbers.KeyIndex(FileStem(s.problemId)).value + 1
  {
    LongContestNumbers.NumberTableLookup(FileStem(s.problemId));
  }

  /**
   * The path starts with the output directory and the contest directory, and
   * ends with the file name, a dot and the extension (a bare dot when the
   * label names no known language).
   */
  lemma OutputFilePathShape(outputDir: string, numbers: map<string, string>, s: Submission)
    requires PathDefined(numbers, s)
    ensures var p := OutputFilePath(outputDir, numbers, s);
      var dir := outputDir + "/" + s.contestId + "/";
      var tail := "." + Extension(s.language);
      && |p| == |dir| + |FileName(numbers, s)| + |tail|
      && p[..|dir|] == dir
      && p[|dir|..|p| - |tail|] == FileName(numbers, s)
      && p[|p| - |tail|..] == tail
  {
  }

  /** Position of the last c in s, or -1 when there is none. */
  function LastIndexOf(s: string, c: char): (i: int)
    ensures -1 <= i < |s|
    ensures i >= 0 ==> s[i] == c
    ensures forall j :: i < j < |s| ==> s[j] != c
  {
    if s == [] then -1
    else if s[|s| - 1] == c then |s| - 1
    else LastIndexOf(s[..|s| - 1], c)
  }

  /**
   * Reads what follows the output directory back into the contest
   * directory, the file name and the extension: the contest ends at the
   * first slash, the extension starts after the last dot.
   */
  function SplitContestFile(rest: string): Option<(string, string, string)> {
    var slash := IndexOf(rest, '/');
    if slash == |rest| then None
    else
      var file := rest[slash + 1..];
      var dot := LastIndexOf(file, '.');
      if dot < 0 then None
      else Some((rest[..slash], file[..dot], file[dot + 1..]))
  }

  /** Reads an output path under the given directory back into its contest, file name and extension. */
  function ParseOutputFilePath(outputDir: string, path: string): Option<(string, string, string)> {
    var prefix := outputDir + "/";
    if !(prefix <= path) then None else SplitContestFile(path[|prefix|..])
  }

  /** The extension never holds a dot. */
  lemma ExtensionHasNoDot(language: string)
    ensures '.' !in Extension(language)
  {
    ExtensionSpec(language);
  }

  /** In a name, a dot and a dot-free extension, the last dot is the one after the name. */
  lemma LastDotBeforeExtension(name: string, ext: string)
    requires '.' !in ext
    ensures var file := name + "." + ext;
      && LastIndexOf(file, '.') == |name| && file[..|name|] == name && file[|name| + 1..] == ext
  {
    var file := name + "." + ext;
    assert file[|name|] == '.';
    assert forall j :: |name| < j < |file| ==> file[j] == ext[j - |name| - 1];
  }

  /** In a slash-free contest, a slash and a file, the first slash is the one after the contest. */
  lemma FirstSlashAfterContest(contest: string, file: string)
    requires '/' !in contest
    ensures var rest := contest + "/" + file;
      && IndexOf(rest, '/') == |contest| && rest[..|contest|] == contest && rest[|contest| + 1..] == file
  {
    IndexOfConcat(contest, "/" + file, '/');
    assert contest + "/" + file == contest + ("/" + file);
  }

  /** A slash-free contest, a slash, a name, a dot and a dot-free extension split back into those three. */
  lemma SplitBuiltContestFile(contest: string, name: string, ext: string)
    requires '/' !in contest && '.' !in ext
    ensures SplitContestFile(contest + "/" + (name + "." + ext)) == Some((contest, name, ext))
  {
    FirstSlashAfterContest(contest, name + "." + ext);
    LastDotBeforeExtension(name, ext);
  }

  /** A path built from a slash-free contest, a name and a dot-free extension reads back as those three. */
  lemma ParseBuiltPath(outputDir: string, contest: string, name: string, ext: string)
    requires '/' !in contest && '.' !in ext
    ensures ParseOutputFilePath(outputDir, outputDir + "/" + contest + "/" + name + "." + ext) == Some((contest, name, ext))
  {
    var rest := contest + "/" + (name + "." + ext);
    var path := outputDir + "/" + contest + "/" + name + "." + ext;
    assert path == (outputDir + "/") + rest;
    assert path[|outputDir + "/"|..] == rest;
    SplitBuiltContestFile(contest, name, ext);
  }

  /**
   * The output path identifies the record's contest, file name and
   * extension: for a contest id without a slash it reads back as those three.
   */
  lemma OutputFilePathRoundTrip(outputDir: string, numbers: map<string, string>, s: Submission)
    requires PathDefined(numbers, s)
    requires '/' !in s.contestId
    ensures ParseOutputFilePath(outputDir, OutputFilePath(outputDir, numbers, s)) ==
            Some((s.contestId, FileName(numbers, s), Extension(s.language)))
  {
    ExtensionHasNoDot(s.language);
    ParseBuiltPath(outputDir, s.contestId, FileName(numbers, s), Extension(s.language));
  }

  /** No two keys of the table share a number. */
  ghost predicate DistinctNumbers(numbers: map<string, string>) {
    forall k1, k2 :: k1 in numbers && k2 in numbers && numbers[k1] == numbers[k2] ==> k1 == k2
  }

  /** The downloader's table gives distinct letter codes distinct numbers. */
  lemma NumberTableDistinct()
    ensures DistinctNumbers(LongContestNumbers.NumberTable())
  {
    var numbers := LongContestNumbers.NumberTable();
    forall k1, k2 | k1 in numbers && k2 in numbers && numbers[k1] == numbers[k2]
      ensures k1 == k2
    {
      LongContestNumbers.NumberTableInjective(k1, k2);
    }
  }

  /**
   * Two records of the same contest and language go to the same file exactly
   * when their file names agree; outside typical90 that is when their problem
   * ids end in the same stem, and in typical90 too when the table gives
   * distinct keys distinct numbers, as the downloader's does.
   */
  lemma SamePathIffSameStem(outputDir: string, numbers: map<string, string>, s1: Submission, s2: Submission)
    requires DistinctNumbers(numbers)
    requires s1.contestId == s2.contestId && s1.language == s2.language
    requires PathDefined(numbers, s1) && PathDefined(numbers, s2)
    ensures OutputFilePath(outputDir, numbers, s1) == OutputFilePath(outputDir, numbers, s2)
        <==> FileStem(s1.problemId) == FileStem(s2.problemId)
  {
    var n1, n2 := FileName(numbers, s1), FileName(numbers, s2);
    var p1, p2 := OutputFilePath(outputDir, numbers, s1), OutputFilePath(outputDir, numbers, s2);
    if p1 == p2 {
      OutputFilePathShape(outputDir, numbers, s1);
      OutputFilePathShape(outputDir, numbers, s2);
      assert n1 == n2;
    }
  }

  // ---------------------------------------------------------------------------
  // The submission URL

  /** `_get_submission_url`. */
  function SubmissionUrl(s: Submission): string {
    UrlPrefix + s.contestId + SubmissionsInfix + Digits(s.id)
  }

  /** Position of the first c in s, or |s| when there is none. */
  function IndexOf(s: string, c: char): (i: nat)
    ensures i <= |s|
    ensures i < |s| ==> s[i] == c
    ensures forall j :: 0 <= j < i ==> s[j] != c
  {
    if s == [] || s[0] == c then 0 else 1 + IndexOf(s[1..], c)
  }

  /** Reads a submission URL back into its contest id and submission id. */
  function ParseSubmissionUrl(url: string): Option<(string, nat)> {
    if !(UrlPrefix <= url) then None
    else
      var rest := url[|UrlPrefix|..];
      var slash := IndexOf(rest, '/');
      var contest, tail := rest[..slash], rest[slash..];
      if !(SubmissionsInfix <= tail) then None
      else
        var digits := tail[|SubmissionsInfix|..];
        if digits == [] || !IsDigits(digits) then None
        else Some((contest, Value(digits)))
  }

  /** Searching a concatenation whose second part starts with c finds the start of that part. */
  lemma {:induction false} IndexOfConcat(a: string, b: string, c: char)
    requires c !in a && |b| > 0 && b[0] == c
    ensures IndexOf(a + b, c) == |a|
  {
    if a != [] {
      assert (a + b)[1..] == a[1..] + b;
      IndexOfConcat(a[1..], b, c);
    }
  }

  /**
   * The URL identifies the submission: for a contest id without a slash it
   * reads back as that contest id and submission id.
   */
  lemma SubmissionUrlRoundTrip(s: Submission)
    requires '/' !in s.contestId
    ensures ParseSubmissionUrl(SubmissionUrl(s)) == Some((s.contestId, s.id))
  {
    var url := SubmissionUrl(s);
    var digits := Digits(s.id);
    var tail := SubmissionsInfix + digits;
    var rest := s.contestId + tail;
    assert url == UrlPrefix + rest;
    assert UrlPrefix <= url;
    assert url[|UrlPrefix|..] == rest;
    IndexOfConcat(s.contestId, tail, '/');
    assert rest[..|s.contestId|] == s.contestId;
    assert rest[|s.contestId|..] == tail;
    assert SubmissionsInfix <= tail;
    assert tail[|SubmissionsInfix|..] == digits;
    ValueOfDigits(s.id);
  }

  /** The URL of the record the repository's test uses. */
  lemma SubmissionUrlExample(s: Submission)
    requires s.contestId == "sample_contest" && s.id == 1234567890
    ensures SubmissionUrl(s) == "https://atcoder.jp/contests/" + "sample_contest" + "/submissions/" + "1234567890"
  {
    DigitsExample();
  }
}
