/**
 * `SubmittedCodesDownloader._organize_submissions_info_by_contest`: keep the
 * accepted records, the latest one per problem, and group them by contest.
 */
module Organize {
  import opened Records
  import opened OrderedDicts

  /** `info_by_problem` once the first loop has read `subs`. */
  function LatestByProblem(subs: seq<Submission>): (d: Dict<Submission>)
    ensures d.Valid()
  {
    if subs == [] then Empty()
    else
      var d := LatestByProblem(subs[..|subs| - 1]);
      var s := subs[|subs| - 1];
      if s.result != Accepted then d else d.Put(s.problemId, s)
  }

  /** `info_by_contest` once the second loop has read `vals`. */
  function GroupByContest(vals: seq<Submission>): (d: Dict<seq<Submission>>)
    ensures d.Valid()
  {
    if vals == [] then Empty()
    else
      var s := vals[|vals| - 1];
      Append(GroupByContest(vals[..|vals| - 1]), s.contestId, s)
  }

  /** What `_organize_submissions_info_by_contest(subs)` returns. */
  function Organized(subs: seq<Submission>): Dict<seq<Submission>> {
    GroupByContest(LatestByProblem(subs).Values())
  }

  /** The records of `vals` that belong to contest c, in their order. */
  function OfContest(vals: seq<Submission>, c: string): seq<Submission> {
    if vals == [] then []
    else
      var s := vals[|vals| - 1];
      OfContest(vals[..|vals| - 1], c) + (if s.contestId == c then [s] else [])
  }

  /** Record k is accepted and no later record is an accepted one for the same problem. */
  predicate LastAccepted(subs: seq<Submission>, k: int) {
    && 0 <= k < |subs|
    && subs[k].result == Accepted
    && forall j :: k < j < |subs| ==> !(subs[j].result == Accepted && subs[j].problemId == subs[k].problemId)
  }

  predicate DistinctProblems(xs: seq<Submission>) {
    forall i, j :: 0 <= i < j < |xs| ==> xs[i].problemId != xs[j].problemId
  }

  /** The two loops of the source, over the records in input order. */
  method OrganizeSubmissionsInfoByContest(submissionsInfo: seq<Submission>)
    returns (infoByContest: Dict<seq<Submission>>)
    ensures infoByContest == Organized(submissionsInfo)
    ensures infoByContest.Valid()
  {
    var infoByProblem: Dict<Submission> := Empty();
    for i := 0 to |submissionsInfo|
      invariant infoByProblem == LatestByProblem(submissionsInfo[..i])
    {
      assert submissionsInfo[..i + 1][..i] == submissionsInfo[..i];
      var submissionInfo := submissionsInfo[i];
      if submissionInfo.result != Accepted {
        continue;
      }
      infoByProblem := infoByProblem.Put(submissionInfo.problemId, submissionInfo);
    }
    assert submissionsInfo[..|submissionsInfo|] == submissionsInfo;

    var values := infoByProblem.Values();
    infoByContest := Empty();
    for j := 0 to |values|
      invariant infoByContest == GroupByContest(values[..j])
    {
      assert values[..j + 1][..j] == values[..j];
      var submissionInfo := values[j];
      infoByContest := Append(infoByContest, submissionInfo.contestId, submissionInfo);
    }
    assert values[..|values|] == values;
  }

  // ---------------------------------------------------------------------------
  // The first loop: latest accepted record per problem

  /** Every accepted record's problem is a key of `info_by_problem`. */
  lemma {:induction false} AcceptedIsKept(subs: seq<Submission>, k: int)
    requires 0 <= k < |subs| && subs[k].result == Accepted
    ensures subs[k].problemId in LatestByProblem(subs).entries
  {
    var n := |subs|;
    var prefix := subs[..n - 1];
    if k < n - 1 {
      assert prefix[k] == subs[k];
      AcceptedIsKept(prefix, k);
    }
  }

  /** The last accepted record of a problem is the one `info_by_problem` holds for it. */
  lemma {:induction false} LastAcceptedIsKept(subs: seq<Submission>, k: int)
    requires LastAccepted(subs, k)
    ensures subs[k].problemId in LatestByProblem(subs).entries
    ensures LatestByProblem(subs).entries[subs[k].problemId] == subs[k]
  {
    var n := |subs|;
    var prefix := subs[..n - 1];
    if k < n - 1 {
      assert prefix[k] == subs[k];
      assert LastAccepted(prefix, k) by {
        forall j | k < j < |prefix|
          ensures !(prefix[j].result == Accepted && prefix[j].problemId == prefix[k].problemId)
        {
          assert prefix[j] == subs[j];
        }
      }
      LastAcceptedIsKept(prefix, k);
    }
  }

  /**
   * Every entry of `info_by_problem` is stored under its own problem id and
   * is the last accepted record of that problem.
   */
  lemma {:induction false} KeptIsLastAccepted(subs: seq<Submission>, p: string)
    requires p in LatestByProblem(subs).entries
    ensures LatestByProblem(subs).entries[p].problemId == p
    ensures exists k :: LastAccepted(subs, k) && subs[k] == LatestByProblem(subs).entries[p]
  {
    var n := |subs|;
    var prefix := subs[..n - 1];
    var s := subs[n - 1];
    if s.result == Accepted && s.problemId == p {
      assert LastAccepted(subs, n - 1);
    } else {
      KeptIsLastAccepted(prefix, p);
      var k :| LastAccepted(prefix, k) && prefix[k] == LatestByProblem(prefix).entries[p];
      assert subs[k] == prefix[k];
      assert LastAccepted(subs, k);
    }
  }

  /** The values of `info_by_problem` name each problem once. */
  lemma LatestValuesDistinct(subs: seq<Submission>)
    ensures DistinctProblems(LatestByProblem(subs).Values())
  {
    var d := LatestByProblem(subs);
    var vs := d.Values();
    forall i | 0 <= i < |vs|
      ensures vs[i].problemId == d.keys[i]
    {
      KeptIsLastAccepted(subs, d.keys[i]);
    }
  }

  // ---------------------------------------------------------------------------
  // The second loop: grouping by contest

  /** A record is in the contest-c part of `vals` iff it is in `vals` and belongs to c. */
  lemma {:induction false} OfContestMember(vals: seq<Submission>, c: string, s: Submission)
    ensures s in OfContest(vals, c) <==> s in vals && s.contestId == c
  {
    if vals != [] {
      var n := |vals|;
      OfContestMember(vals[..n - 1], c, s);
      assert vals == vals[..n - 1] + [vals[n - 1]];
    }
  }

  /** Picking one contest's records keeps problem ids distinct. */
  lemma {:induction false} OfContestDistinct(vals: seq<Submission>, c: string)
    requires DistinctProblems(vals)
    ensures DistinctProblems(OfContest(vals, c))
  {
    if vals != [] {
      var n := |vals|;
      var prefix, s := vals[..n - 1], vals[n - 1];
      OfContestDistinct(prefix, c);
      if s.contestId == c {
        var f := OfContest(prefix, c);
        forall i | 0 <= i < |f|
          ensures f[i].problemId != s.problemId
        {
          OfContestMember(prefix, c, f[i]);
          var a :| 0 <= a < |prefix| && prefix[a] == f[i];
          assert vals[a] == f[i];
        }
      }
    }
  }

  /**
   * The grouping holds a list for contest c exactly when some record belongs
   * to c, and that list is the records of c in their original order.
   */
  lemma {:induction false} GroupIsOfContest(vals: seq<Submission>, c: string)
    ensures c in GroupByContest(vals).entries <==> OfContest(vals, c) != []
    ensures c in GroupByContest(vals).entries ==> GroupByContest(vals).entries[c] == OfContest(vals, c)
  {
    if vals != [] {
      GroupIsOfContest(vals[..|vals| - 1], c);
    }
  }

  // ---------------------------------------------------------------------------
  // The result of `_organize_submissions_info_by_contest`

  /**
   * Every grouped record is accepted, sits in the list of its own contest,
   * and is the last accepted record of its problem in the input.
   */
  lemma OrganizedRecord(subs: seq<Submission>, c: string, i: int)
    requires c in Organized(subs).entries && 0 <= i < |Organized(subs).entries[c]|
    ensures Organized(subs).entries[c][i].result == Accepted
    ensures Organized(subs).entries[c][i].contestId == c
    ensures exists k :: LastAccepted(subs, k) && subs[k] == Organized(subs).entries[c][i]
  {
    var d := LatestByProblem(subs);
    var vals := d.Values();
    var s := Organized(subs).entries[c][i];
    GroupIsOfContest(vals, c);
    OfContestMember(vals, c, s);
    var a :| 0 <= a < |vals| && vals[a] == s;
    KeptIsLastAccepted(subs, d.keys[a]);
  }

  /** The last accepted record of every problem is grouped under its contest. */
  lemma OrganizedComplete(subs: seq<Submission>, k: int)
    requires LastAccepted(subs, k)
    ensures subs[k].contestId in Organized(subs).entries
    ensures subs[k] in Organized(subs).entries[subs[k].contestId]
  {
    var d := LatestByProblem(subs);
    var vals := d.Values();
    var s, c := subs[k], subs[k].contestId;
    LastAcceptedIsKept(subs, k);
    var a :| 0 <= a < |d.keys| && d.keys[a] == s.problemId;
    assert vals[a] == s;
    OfContestMember(vals, c, s);
    GroupIsOfContest(vals, c);
  }

  /** No problem id occurs twice anywhere in the grouping. */
  lemma OrganizedUnique(subs: seq<Submission>, c1: string, i1: int, c2: string, i2: int)
    requires c1 in Organized(subs).entries && 0 <= i1 < |Organized(subs).entries[c1]|
    requires c2 in Organized(subs).entries && 0 <= i2 < |Organized(subs).entries[c2]|
    requires Organized(subs).entries[c1][i1].problemId == Organized(subs).entries[c2][i2].problemId
    ensures c1 == c2 && i1 == i2
  {
    var vals := LatestByProblem(subs).Values();
    var s1, s2 := Organized(subs).entries[c1][i1], Organized(subs).entries[c2][i2];
    LatestValuesDistinct(subs);
    GroupIsOfContest(vals, c1);
    GroupIsOfContest(vals, c2);
    OfContestMember(vals, c1, s1);
    OfContestMember(vals, c2, s2);
    var a1 :| 0 <= a1 < |vals| && vals[a1] == s1;
    var a2 :| 0 <= a2 < |vals| && vals[a2] == s2;
    assert a1 == a2;
    OfContestDistinct(vals, c1);
  }

  /**
   * A problem appears in the grouping iff at least one of its input records
   * is accepted.
   */
  lemma OrganizedProblemIff(subs: seq<Submission>, p: string)
    ensures (exists c, i :: c in Organized(subs).entries && 0 <= i < |Organized(subs).entries[c]| &&
                            Organized(subs).entries[c][i].problemId == p)
        <==> (exists k :: 0 <= k < |subs| && subs[k].result == Accepted && subs[k].problemId == p)
  {
    var o := Organized(subs);
    if exists c, i :: c in o.entries && 0 <= i < |o.entries[c]| && o.entries[c][i].problemId == p {
      var c, i :| c in o.entries && 0 <= i < |o.entries[c]| && o.entries[c][i].problemId == p;
      OrganizedRecord(subs, c, i);
    }
    if exists k :: 0 <= k < |subs| && subs[k].result == Accepted && subs[k].problemId == p {
      var k :| 0 <= k < |subs| && subs[k].result == Accepted && subs[k].problemId == p;
      AcceptedIsKept(subs, k);
      KeptIsLastAccepted(subs, p);
      var m :| LastAccepted(subs, m) && subs[m] == LatestByProblem(subs).entries[p];
      OrganizedComplete(subs, m);
      var c := subs[m].contestId;
      var i :| 0 <= i < |o.entries[c]| && o.entries[c][i] == subs[m];
    }
  }
}
