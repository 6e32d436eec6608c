/**
 * `SubmittedCodesDownloader.__init__` (its settings and table) and the loop
 * of `exec_download`: for each contest of the grouping, and each record in
 * it, compute the output path, skip it when the file exists and overwrite is
 * off, otherwise fetch the page at the submission URL and write the file.
 * The file system is the set of paths that exist; a fetch is recorded as the
 * path written and the URL read.
 */
module Download {
  import opened Records
  import opened OrderedDicts
  import opened Organize
  import opened Paths
  import LongContestNumbers

  /** The downloader's settings after `__init__`. */
  datatype Downloader = Downloader(
    atcoderUserId: string,
    firstEpochSecond: int,
    outputDir: string,
    problemIdToNumber: map<string, string>)

  /**
   * `__init__`, without the browser driver; the first epoch second is given
   * rather than computed from a local-time date.
   */
  method NewDownloader(atcoderUserId: string, outputDir: string, firstEpochSecond: int)
    returns (d: Downloader)
    ensures d.atcoderUserId == atcoderUserId && d.outputDir == outputDir
    ensures d.firstEpochSecond == firstEpochSecond
    ensures d.problemIdToNumber == LongContestNumbers.NumberTable()
    ensures |d.problemIdToNumber| == LongContestNumbers.MaxProblemPerContest
  {
    var table := LongContestNumbers.InitLongContestNumberDict();
    LongContestNumbers.NumberTableSpec();
    d := Downloader(atcoderUserId, firstEpochSecond, outputDir, table);
  }

  /** One page fetched: the file written and the URL read. */
  datatype Fetch = Fetch(path: string, url: string)

  /** The files that exist, and the pages fetched so far in order. */
  datatype Progress = Progress(existing: set<string>, fetched: seq<Fetch>)

  /** The test at line 185 negated: fetch unless the file exists and overwrite is off. */
  predicate ShouldFetch(path: string, existing: set<string>, overwrite: bool) {
    !(path in existing && !overwrite)
  }

  /** Every record has an output path. */
  predicate AllPathsDefined(d: Downloader, items: seq<Submission>) {
    forall s :: s in items ==> PathDefined(d.problemIdToNumber, s)
  }

  /**
   * `_get_output_file_path` of this downloader, as a function of the record.
   * A record without an output path makes the source raise before any
   * fetch; `ExecDownload` rules it out, and the placeholder path given to it
   * here is never used.
   */
  function OutputPathOf(d: Downloader): Submission -> string {
    s => if PathDefined(d.problemIdToNumber, s) then OutputFilePath(d.outputDir, d.problemIdToNumber, s) else ""
  }

  lemma OutputPathOfSpec(d: Downloader, s: Submission)
    requires PathDefined(d.problemIdToNumber, s)
    ensures OutputPathOf(d)(s) == OutputFilePath(d.outputDir, d.problemIdToNumber, s)
  {
  }

  /** The fetch each record calls for if it is not skipped, in order. */
  function Planned(pathOf: Submission -> string, urlOf: Submission -> string, items: seq<Submission>): (fs: seq<Fetch>)
    ensures |fs| == |items|
  {
    if items == [] then []
    else
      var s := items[|items| - 1];
      Planned(pathOf, urlOf, items[..|items| - 1]) + [Fetch(pathOf(s), urlOf(s))]
  }

  /** One iteration of the inner loop. */
  function Step(overwrite: bool, p: Progress, f: Fetch): Progress {
    if !ShouldFetch(f.path, p.existing, overwrite) then p
    else Progress(p.existing + {f.path}, p.fetched + [f])
  }

  /** The iterations over the planned fetches, in order. */
  function Run(overwrite: bool, p: Progress, fs: seq<Fetch>): Progress {
    if fs == [] then p else Step(overwrite, Run(overwrite, p, fs[..|fs| - 1]), fs[|fs| - 1])
  }

  /** The records of the first n contests, contest by contest in key order. */
  function InVisitOrder(groups: Dict<seq<Submission>>, n: nat): seq<Submission>
    requires groups.Valid() && n <= |groups.keys|
  {
    if n == 0 then [] else InVisitOrder(groups, n - 1) + groups.entries[groups.keys[n - 1]]
  }

  /** The outer loop over the first n contests, each run through the inner loop. */
  function RunContests(overwrite: bool, p: Progress, pathOf: Submission -> string, urlOf: Submission -> string,
                       groups: Dict<seq<Submission>>, n: nat): Progress
    requires groups.Valid() && n <= |groups.keys|
  {
    if n == 0 then p
    else Run(overwrite, RunContests(overwrite, p, pathOf, urlOf, groups, n - 1),
             Planned(pathOf, urlOf, groups.entries[groups.keys[n - 1]]))
  }

  /** The order in which `exec_download` visits the records of the input. */
  function Visited(subs: seq<Submission>): seq<Submission> {
    var groups := Organized(subs);
    InVisitOrder(groups, |groups.keys|)
  }

  /** The paths of a sequence of fetches. */
  function FetchedPaths(fetched: seq<Fetch>): set<string> {
    set f | f in fetched :: f.path
  }

  /**
   * `exec_download` after the records are fetched: organise them, then run
   * the loop with this downloader's output paths and the submission URLs. A
   * typical90 record whose stem has no number would make the source raise,
   * so the caller provides records for which every kept one has a path.
   */
  method ExecDownload(d: Downloader, submissionsInfo: seq<Submission>, existing: set<string>, overwrite: bool)
    returns (fetched: seq<Fetch>, existingAfter: set<string>)
    requires forall k :: LastAccepted(submissionsInfo, k) ==> PathDefined(d.problemIdToNumber, submissionsInfo[k])
    ensures AllPathsDefined(d, Visited(submissionsInfo))
    ensures Progress(existingAfter, fetched) ==
            Run(overwrite, Progress(existing, []), Planned(OutputPathOf(d), SubmissionUrl, Visited(submissionsInfo)))
  {
    var submissionsInfoByContest := OrganizeSubmissionsInfoByContest(submissionsInfo);
    VisitedPathsDefined(d, submissionsInfo);
    fetched, existingAfter := DownloadContests(OutputPathOf(d), SubmissionUrl, submissionsInfoByContest, existing, overwrite);
    RunContestsFlat(overwrite, Progress(existing, []), OutputPathOf(d), SubmissionUrl,
                    submissionsInfoByContest, |submissionsInfoByContest.keys|);
  }

  /**
   * The outer loop of `exec_download`: the contests in the order of the
   * grouping, each through the inner loop. The output path and the URL of a
   * record come from the two given functions.
   */
  method DownloadContests(outputFilePathOf: Submission -> string, submissionUrlOf: Submission -> string,
                          infoByContest: Dict<seq<Submission>>, existing: set<string>, overwrite: bool)
    returns (fetched: seq<Fetch>, existingAfter: set<string>)
    requires infoByContest.Valid()
    ensures Progress(existingAfter, fetched) ==
            RunContests(overwrite, Progress(existing, []), outputFilePathOf, submissionUrlOf,
                        infoByContest, |infoByContest.keys|)
  {
    existingAfter, fetched := existing, [];
    for ci := 0 to |infoByContest.keys|
      invariant Progress(existingAfter, fetched) ==
                RunContests(overwrite, Progress(existing, []), outputFilePathOf, submissionUrlOf, infoByContest, ci)
    {
      var contestName := infoByContest.keys[ci];
      var contestSubmissionInfo := infoByContest.entries[contestName];
      fetched, existingAfter :=
        DownloadContest(outputFilePathOf, submissionUrlOf, contestSubmissionInfo, existingAfter, fetched, overwrite);
    }
  }

  /**
   * The inner loop of `exec_download`: the records of one contest in order;
   * a record whose file exists is skipped unless overwrite is on, any other
   * is fetched from its URL and its file then exists.
   */
  method DownloadContest(outputFilePathOf: Submission -> string, submissionUrlOf: Submission -> string,
                         contestSubmissionInfo: seq<Submission>,
                         existing: set<string>, fetched0: seq<Fetch>, overwrite: bool)
    returns (fetched: seq<Fetch>, existingAfter: set<string>)
    ensures Progress(existingAfter, fetched) ==
            Run(overwrite, Progress(existing, fetched0), Planned(outputFilePathOf, submissionUrlOf, contestSubmissionInfo))
  {
    existingAfter, fetched := existing, fetched0;
    for k := 0 to |contestSubmissionInfo|
      invariant Progress(existingAfter, fetched) ==
                Run(overwrite, Progress(existing, fetched0),
                    Planned(outputFilePathOf, submissionUrlOf, contestSubmissionInfo[..k]))
    {
      var problemSubmissionInfo := contestSubmissionInfo[k];
      assert contestSubmissionInfo[..k + 1] == contestSubmissionInfo[..k] + [problemSubmissionInfo];
      PlannedSnoc(outputFilePathOf, submissionUrlOf, contestSubmissionInfo[..k], problemSubmissionInfo);
      var outputFilePath := outputFilePathOf(problemSubmissionInfo);
      var submissionUrl := submissionUrlOf(problemSubmissionInfo);
      RunSnoc(overwrite, Progress(existing, fetched0),
              Planned(outputFilePathOf, submissionUrlOf, contestSubmissionInfo[..k]),
              Fetch(outputFilePath, submissionUrl));
      if outputFilePath in existingAfter && !overwrite {
        continue;
      }
      fetched := fetched + [Fetch(outputFilePath, submissionUrl)];
      existingAfter := existingAfter + {outputFilePath};
    }
    assert contestSubmissionInfo[..|contestSubmissionInfo|] == contestSubmissionInfo;
  }

  // ---------------------------------------------------------------------------
  // Which records are visited

  /** A record is visited in the first n contests iff it is in one of their lists. */
  lemma {:induction false} InVisitOrderMember(groups: Dict<seq<Submission>>, n: nat, s: Submission)
    requires groups.Valid() && n <= |groups.keys|
    ensures s in InVisitOrder(groups, n) <==> exists j :: 0 <= j < n && s in groups.entries[groups.keys[j]]
  {
    if n > 0 {
      InVisitOrderMember(groups, n - 1, s);
    }
  }

  /** The visited records are exactly the grouped ones: the last accepted record of each problem. */
  lemma VisitedMember(subs: seq<Submission>, s: Submission)
    ensures s in Visited(subs) <==> exists k :: LastAccepted(subs, k) && subs[k] == s
  {
    var groups := Organized(subs);
    InVisitOrderMember(groups, |groups.keys|, s);
    if s in Visited(subs) {
      var j :| 0 <= j < |groups.keys| && s in groups.entries[groups.keys[j]];
      var i :| 0 <= i < |groups.entries[groups.keys[j]]| && groups.entries[groups.keys[j]][i] == s;
      OrganizedRecord(subs, groups.keys[j], i);
    }
    if exists k :: LastAccepted(subs, k) && subs[k] == s {
      var k :| LastAccepted(subs, k) && subs[k] == s;
      OrganizedComplete(subs, k);
      var j :| 0 <= j < |groups.keys| && groups.keys[j] == s.contestId;
    }
  }

  /** When every last accepted record has a path, every visited record has one. */
  lemma VisitedPathsDefined(d: Downloader, subs: seq<Submission>)
    requires forall k :: LastAccepted(subs, k) ==> PathDefined(d.problemIdToNumber, subs[k])
    ensures AllPathsDefined(d, Visited(subs))
  {
    forall s | s in Visited(subs)
      ensures PathDefined(d.problemIdToNumber, s)
    {
      VisitedMember(subs, s);
    }
  }

  // ---------------------------------------------------------------------------
  // The plan and the run, for any path and URL functions

  lemma PlannedSnoc(pathOf: Submission -> string, urlOf: Submission -> string, items: seq<Submission>, s: Submission)
    ensures Planned(pathOf, urlOf, items + [s]) == Planned(pathOf, urlOf, items) + [Fetch(pathOf(s), urlOf(s))]
  {
    assert (items + [s])[..|items|] == items;
  }

  lemma {:induction false} PlannedAppend(pathOf: Submission -> string, urlOf: Submission -> string,
                                         a: seq<Submission>, b: seq<Submission>)
    ensures Planned(pathOf, urlOf, a + b) == Planned(pathOf, urlOf, a) + Planned(pathOf, urlOf, b)
  {
    if b == [] {
      assert a + b == a;
    } else {
      var n := |b|;
      PlannedAppend(pathOf, urlOf, a, b[..n - 1]);
      assert (a + b)[..|a + b| - 1] == a + b[..n - 1];
      assert (a + b)[|a + b| - 1] == b[n - 1];
    }
  }

  /** The fetch planned for position i is that of the record at position i. */
  lemma {:induction false} PlannedAt(pathOf: Submission -> string, urlOf: Submission -> string,
                                     items: seq<Submission>, i: int)
    requires 0 <= i < |items|
    ensures Planned(pathOf, urlOf, items)[i] == Fetch(pathOf(items[i]), urlOf(items[i]))
  {
    var n := |items|;
    if i < n - 1 {
      PlannedAt(pathOf, urlOf, items[..n - 1], i);
    }
  }

  lemma {:induction false} RunAppend(overwrite: bool, p: Progress, fs: seq<Fetch>, gs: seq<Fetch>)
    ensures Run(overwrite, p, fs + gs) == Run(overwrite, Run(overwrite, p, fs), gs)
  {
    if gs == [] {
      assert fs + gs == fs;
    } else {
      var n := |gs|;
      RunAppend(overwrite, p, fs, gs[..n - 1]);
      assert (fs + gs)[..|fs + gs| - 1] == fs + gs[..n - 1];
      assert (fs + gs)[|fs + gs| - 1] == gs[n - 1];
    }
  }

  lemma RunSnoc(overwrite: bool, p: Progress, fs: seq<Fetch>, f: Fetch)
    ensures Run(overwrite, p, fs + [f]) == Step(overwrite, Run(overwrite, p, fs), f)
  {
    assert (fs + [f])[..|fs|] == fs;
  }

  /** Running contest by contest is running the records of those contests in visiting order. */
  lemma {:induction false} RunContestsFlat(overwrite: bool, p: Progress,
                                           pathOf: Submission -> string, urlOf: Submission -> string,
                                           groups: Dict<seq<Submission>>, n: nat)
    requires groups.Valid() && n <= |groups.keys|
    ensures RunContests(overwrite, p, pathOf, urlOf, groups, n) ==
            Run(overwrite, p, Planned(pathOf, urlOf, InVisitOrder(groups, n)))
  {
    if n > 0 {
      var done := InVisitOrder(groups, n - 1);
      var group := groups.entries[groups.keys[n - 1]];
      calc {
        RunContests(overwrite, p, pathOf, urlOf, groups, n);
        Run(overwrite, RunContests(overwrite, p, pathOf, urlOf, groups, n - 1), Planned(pathOf, urlOf, group));
        { RunContestsFlat(overwrite, p, pathOf, urlOf, groups, n - 1); }
        Run(overwrite, Run(overwrite, p, Planned(pathOf, urlOf, done)), Planned(pathOf, urlOf, group));
        { RunAppend(overwrite, p, Planned(pathOf, urlOf, done), Planned(pathOf, urlOf, group)); }
        Run(overwrite, p, Planned(pathOf, urlOf, done) + Planned(pathOf, urlOf, group));
        { PlannedAppend(pathOf, urlOf, done, group); }
        Run(overwrite, p, Planned(pathOf, urlOf, done + group));
      }
    }
  }

  // ---------------------------------------------------------------------------
  // What the loop does to the file system

  /** Afterwards the file of every planned fetch exists, and no other file was added. */
  lemma {:induction false} RunExisting(overwrite: bool, p: Progress, fs: seq<Fetch>)
    ensures Run(overwrite, p, fs).existing == p.existing + FetchedPaths(fs)
  {
    if fs != [] {
      var n := |fs|;
      RunExisting(overwrite, p, fs[..n - 1]);
      assert fs == fs[..n - 1] + [fs[n - 1]];
      assert FetchedPaths(fs) == FetchedPaths(fs[..n - 1]) + {fs[n - 1].path};
    }
  }

  /** With overwrite on, nothing is skipped: every planned fetch happens, in order. */
  lemma {:induction false} RunOverwrite(p: Progress, fs: seq<Fetch>)
    ensures Run(true, p, fs).fetched == p.fetched + fs
  {
    if fs != [] {
      var n := |fs|;
      RunOverwrite(p, fs[..n - 1]);
      assert fs == fs[..n - 1] + [fs[n - 1]];
    }
  }

  /** The fetches made are planned ones, kept in their order after the earlier ones. */
  lemma {:induction false} RunFetchesPlanned(overwrite: bool, p: Progress, fs: seq<Fetch>)
    ensures |p.fetched| <= |Run(overwrite, p, fs).fetched|
    ensures Run(overwrite, p, fs).fetched[..|p.fetched|] == p.fetched
    ensures forall i :: |p.fetched| <= i < |Run(overwrite, p, fs).fetched| ==> Run(overwrite, p, fs).fetched[i] in fs
  {
    if fs != [] {
      var n := |fs|;
      RunFetchesPlanned(overwrite, p, fs[..n - 1]);
      var q := Run(overwrite, p, fs[..n - 1]);
      forall i | |p.fetched| <= i < |q.fetched|
        ensures q.fetched[i] in fs
      {
        assert q.fetched[i] in fs[..n - 1];
      }
    }
  }

  /**
   * With overwrite off: no fetched file existed beforehand, no file is
   * fetched twice, and the files that exist are the old ones plus the fetched.
   */
  ghost predicate FetchedFresh(p: Progress, existing0: set<string>) {
    && (forall i :: 0 <= i < |p.fetched| ==> p.fetched[i].path !in existing0)
    && (forall i, j :: 0 <= i < j < |p.fetched| ==> p.fetched[i].path != p.fetched[j].path)
    && p.existing == existing0 + FetchedPaths(p.fetched)
  }

  lemma {:induction false} RunNoOverwrite(p: Progress, fs: seq<Fetch>, existing0: set<string>)
    requires FetchedFresh(p, existing0)
    ensures FetchedFresh(Run(false, p, fs), existing0)
  {
    if fs != [] {
      var n := |fs|;
      RunNoOverwrite(p, fs[..n - 1], existing0);
      var q := Run(false, p, fs[..n - 1]);
      var f := fs[n - 1];
      if f.path !in q.existing {
        assert FetchedPaths(q.fetched + [f]) == FetchedPaths(q.fetched) + {f.path};
        forall i | 0 <= i < |q.fetched|
          ensures q.fetched[i].path != f.path
        {
          assert q.fetched[i] in q.fetched;
        }
      }
    }
  }

  /** Without overwrite, from no fetches: the files fetched are the planned ones that were missing, each once. */
  lemma RunNoOverwriteFresh(existing: set<string>, fs: seq<Fetch>)
    ensures var r := Run(false, Progress(existing, []), fs);
      && FetchedPaths(r.fetched) == FetchedPaths(fs) - existing
      && forall i, j :: 0 <= i < j < |r.fetched| ==> r.fetched[i].path != r.fetched[j].path
  {
    var p0 := Progress(existing, []);
    assert FetchedPaths([]) == {};
    RunNoOverwrite(p0, fs, existing);
    RunExisting(false, p0, fs);
    var r := Run(false, p0, fs);
    RunFetchesPlanned(false, p0, fs);
    forall f | f in r.fetched
      ensures f in fs
    {
      var i :| 0 <= i < |r.fetched| && r.fetched[i] == f;
    }
  }

  /** With overwrite on, every record is fetched, in order, to its path from its URL. */
  lemma RunPlannedOverwrite(pathOf: Submission -> string, urlOf: Submission -> string,
                            items: seq<Submission>, existing: set<string>)
    ensures var r := Run(true, Progress(existing, []), Planned(pathOf, urlOf, items));
      && |r.fetched| == |items|
      && forall i :: 0 <= i < |r.fetched| ==> r.fetched[i] == Fetch(pathOf(items[i]), urlOf(items[i]))
  {
    var fs := Planned(pathOf, urlOf, items);
    var r := Run(true, Progress(existing, []), fs);
    RunOverwrite(Progress(existing, []), fs);
    assert r.fetched == fs;
    forall i | 0 <= i < |r.fetched|
      ensures r.fetched[i] == Fetch(pathOf(items[i]), urlOf(items[i]))
    {
      PlannedAt(pathOf, urlOf, items, i);
    }
  }

  // ---------------------------------------------------------------------------
  // The whole of `exec_download`

  /** After `exec_download` the file of every visited record exists, and no other file was added. */
  lemma ExecDownloadExisting(d: Downloader, subs: seq<Submission>, existing: set<string>, overwrite: bool)
    requires forall k :: LastAccepted(subs, k) ==> PathDefined(d.problemIdToNumber, subs[k])
    ensures AllPathsDefined(d, Visited(subs))
    ensures Run(overwrite, Progress(existing, []), Planned(OutputPathOf(d), SubmissionUrl, Visited(subs))).existing ==
            existing + set s | s in Visited(subs) :: OutputFilePath(d.outputDir, d.problemIdToNumber, s)
  {
    var items := Visited(subs);
    var fs := Planned(OutputPathOf(d), SubmissionUrl, items);
    VisitedPathsDefined(d, subs);
    RunExisting(overwrite, Progress(existing, []), fs);
    forall s | s in items
      ensures OutputFilePath(d.outputDir, d.problemIdToNumber, s) in FetchedPaths(fs)
    {
      var i :| 0 <= i < |items| && items[i] == s;
      PlannedAt(OutputPathOf(d), SubmissionUrl, items, i);
      OutputPathOfSpec(d, s);
      assert fs[i] in fs;
    }
    forall f | f in fs
      ensures exists s :: s in items && f.path == OutputFilePath(d.outputDir, d.problemIdToNumber, s)
    {
      var i :| 0 <= i < |fs| && fs[i] == f;
      PlannedAt(OutputPathOf(d), SubmissionUrl, items, i);
      OutputPathOfSpec(d, items[i]);
      assert items[i] in items;
    }
  }

  /**
   * With overwrite on, every visited record is fetched, in visiting order,
   * to its own output path from its own submission URL.
   */
  lemma ExecDownloadOverwrite(d: Downloader, subs: seq<Submission>, existing: set<string>)
    requires forall k :: LastAccepted(subs, k) ==> PathDefined(d.problemIdToNumber, subs[k])
    ensures var r := Run(true, Progress(existing, []), Planned(OutputPathOf(d), SubmissionUrl, Visited(subs)));
      && |r.fetched| == |Visited(subs)|
      && forall i :: 0 <= i < |r.fetched| ==>
           var s := Visited(subs)[i];
           && PathDefined(d.problemIdToNumber, s)
           && r.fetched[i] == Fetch(OutputFilePath(d.outputDir, d.problemIdToNumber, s), SubmissionUrl(s))
  {
    var items := Visited(subs);
    VisitedPathsDefined(d, subs);
    RunPlannedOverwrite(OutputPathOf(d), SubmissionUrl, items, existing);
    var r := Run(true, Progress(existing, []), Planned(OutputPathOf(d), SubmissionUrl, items));
    forall i | 0 <= i < |items|
      ensures PathDefined(d.problemIdToNumber, items[i])
      ensures r.fetched[i] == Fetch(OutputFilePath(d.outputDir, d.problemIdToNumber, items[i]), SubmissionUrl(items[i]))
    {
      assert items[i] in items;
      OutputPathOfSpec(d, items[i]);
    }
  }

  /** With overwrite off, exactly the missing files of visited records are fetched, each once. */
  lemma ExecDownloadNoOverwrite(d: Downloader, subs: seq<Submission>, existing: set<string>)
    ensures var fs := Planned(OutputPathOf(d), SubmissionUrl, Visited(subs));
      var r := Run(false, Progress(existing, []), fs);
      && FetchedPaths(r.fetched) == FetchedPaths(fs) - existing
      && forall i, j :: 0 <= i < j < |r.fetched| ==> r.fetched[i].path != r.fetched[j].path
  {
    RunNoOverwriteFresh(existing, Planned(OutputPathOf(d), SubmissionUrl, Visited(subs)));
  }
}
