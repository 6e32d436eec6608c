/**
 * One record of the user-submissions API as the downloader reads it: the
 * fields it looks up by name (`id`, `epoch_second`, `problem_id`,
 * `contest_id`, `result`, `language`).
 */
module Records {
  datatype Submission = Submission(
    id: nat,
    epochSecond: int,
    problemId: string,
    contestId: string,
    result: string,
    language: string)

  /** The verdict string the downloader keeps. */
  const Accepted: string := "AC"
}
