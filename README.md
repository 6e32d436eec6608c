# AtCoder submitted-codes downloader, modelled in Dafny

`SubmittedCodesDownloader` saves a user's accepted AtCoder submissions as
local source files. It:

1. builds a table renumbering the letter problem ids of the long contests
   (`a` → `001`, …, `z` → `026`, `aa` → `027`, …, `gs` → `201`);
2. reduces the list of submission records to the last accepted record of
   every problem and groups those by contest. Each problem sits under the
   contest of its last accepted record. Problems, and the contests holding
   them, are ordered by the position of each problem's first accepted record,
   because a later record replaces an earlier one in place in the dict;
3. derives for each kept record an output path of the form
   `{output_dir}/{contest_id}/{file_name}.{extension}` and a submission URL
   `https://atcoder.jp/contests/{contest_id}/submissions/{id}`;
4. walks the contests and their records in that order. A record whose file
   already exists is skipped unless overwrite is on. Otherwise the code is
   fetched from its URL and the file is written.

This project models those steps:

| module | what it holds |
|---|---|
| `Decimal` | `str(n)` for a natural number, `zfill`, and the value of a digit string |
| `LongContestNumbers` | the renumbering table, the loop that builds it, and its closed form |
| `Records` | one submission record, with the fields the downloader reads |
| `OrderedDicts` | Python's insertion-ordered `dict`, and `defaultdict(list)` append |
| `Organize` | the two loops of `_organize_submissions_info_by_contest`, the folds that specify them, and what the result contains |
| `Paths` | `split("_")[-1]`, substring search, the extension rule, the output path, and the submission URL with a parser that reads it back |
| `Download` | the downloader's settings and the skip-or-fetch loop of `exec_download` |

The file system is modelled as the set of paths that exist. A fetch is
recorded as the pair (path written, URL read). The loop is proved equal to
a left fold of one step (`Run`) over the planned fetches of the visited
records (`Planned`). The properties of `exec_download` are lemmas about that
fold:
- which files exist afterwards;
- with overwrite on, every record is fetched in order;
- with overwrite off, exactly the missing files are fetched, each once.

The loops use the source's own names. The path and URL of a record come
from function values, so the loop proofs do not depend on how the strings
are built.

## Model

| member | source | states |
|---|---|---|
| `Download.NewDownloader` | src/atcoder/submitted_codes_downloader.py:23-41 | the settings are the arguments, and the table is the 201-entry renumbering table |
| `LongContestNumbers.InitLongContestNumberDict` | src/atcoder/submitted_codes_downloader.py:43-57 | the loop builds exactly the table that maps the code of every i below 201 to the zero-padded i + 1 |
| `LongContestNumbers.Key` | src/atcoder/submitted_codes_downloader.py:51-55 | the dict key of iteration i: `chr(i // 26 + ord("a") - 1)`, dropped when it is the backquote, followed by `chr(i % 26 + ord("a"))`; `KeyRoundTrip`, `IndexRoundTrip` and `KeyShape` pin it down against the decoder `KeyIndex` |
| `LongContestNumbers.Number` | src/atcoder/submitted_codes_downloader.py:56 | the value of iteration i, `str(i + 1).zfill(3)`; `NumberShape` pins it down as three digits denoting i + 1 |
| `LongContestNumbers.TableUpTo` | src/atcoder/submitted_codes_downloader.py:50-56 | the dict after the first n iterations; `TableUpToKey`, `TableUpToValue` and `TableUpToSize` state its keys, values and size |
| `LongContestNumbers.NumberTable` | src/atcoder/submitted_codes_downloader.py:48-57 | the returned dict, 201 iterations; `NumberTableSpec`, `NumberTableLookup` and `NumberTableInjective` characterise it |
| `LongContestNumbers.KeyRoundTrip` | src/atcoder/submitted_codes_downloader.py:51-55 | the letter code of i reads back as i |
| `LongContestNumbers.IndexRoundTrip` | src/atcoder/submitted_codes_downloader.py:51-55 | a string that reads as an index below 201 is that index's letter code |
| `LongContestNumbers.KeyInjective` | src/atcoder/submitted_codes_downloader.py:51-55 | distinct indices get distinct letter codes, so no table entry overwrites another |
| `LongContestNumbers.KeyShape` | src/atcoder/submitted_codes_downloader.py:52-55 | a code is one lower-case letter below 26 and two from 26 on |
| `LongContestNumbers.NumberShape` | src/atcoder/submitted_codes_downloader.py:56 | each number has three digits and denotes i + 1 |
| `LongContestNumbers.TableUpToKey` | src/atcoder/submitted_codes_downloader.py:50-56 | after n iterations, every key is the code of an index below n |
| `LongContestNumbers.TableUpToValue` | src/atcoder/submitted_codes_downloader.py:50-56 | after n iterations, the code of every index below n maps to its number |
| `LongContestNumbers.TableUpToSize` | src/atcoder/submitted_codes_downloader.py:50-56 | after n iterations the table has n entries |
| `LongContestNumbers.NumberTableSpec` | src/atcoder/submitted_codes_downloader.py:48-57 | the table has 201 entries and maps the code of each i to its number |
| `LongContestNumbers.NumberTableLookup` | src/atcoder/submitted_codes_downloader.py:48-57 | a string is a key iff it reads as an index below 201, and its value is then three digits denoting that index plus one |
| `LongContestNumbers.NumberTableInjective` | src/atcoder/submitted_codes_downloader.py:48-57 | two keys with the same number are the same key |
| `LongContestNumbers.NumberTableExamples` | tests/atcoder/test_submitted_codes_downloader.py:11-17 | `a`→`001`, `z`→`026`, `aa`→`027`, `az`→`052`, and the last entry `gs`→`201` |
| `LongContestNumbers.KeyExamples` | src/atcoder/submitted_codes_downloader.py:51-55 | the codes of 0, 25, 26, 51 and 200 are `a`, `z`, `aa`, `az`, `gs` |
| `LongContestNumbers.NumberExamples` | src/atcoder/submitted_codes_downloader.py:56 | the numbers of 0, 25, 26, 51 and 200 are `001`, `026`, `027`, `052`, `201` |
| `Decimal.ValueOfDigits` | src/atcoder/submitted_codes_downloader.py:56 | `str(n)` denotes n |
| `Decimal.Digits` | src/atcoder/submitted_codes_downloader.py:56 | `str(n)` for a natural number (also at line 160): its ensures give a non-empty digit string without a leading zero, and `ValueOfDigits` shows it denotes n |
| `Decimal.ZFill` | src/atcoder/submitted_codes_downloader.py:56 | `s.zfill(width)`: its ensures give the longer of s and width as its length, with s as the suffix, and `ValueOfZFill` shows the value is kept |
| `Decimal.ValueIgnoresLeadingZeros` | src/atcoder/submitted_codes_downloader.py:56 | leading zeros do not change the value of a digit string |
| `Decimal.ZerosHaveNoValue` | src/atcoder/submitted_codes_downloader.py:56 | a string of zeros denotes 0 |
| `Decimal.ValueOfZFill` | src/atcoder/submitted_codes_downloader.py:56 | `str(n).zfill(w)` is still a digit string denoting n |
| `Decimal.DigitsBelowThousand` | src/atcoder/submitted_codes_downloader.py:56 | a number below 1000 has at most three digits, so `zfill(3)` gives exactly three |
| `Decimal.DigitsExample` | tests/atcoder/test_submitted_codes_downloader.py:40-45 | `str(1234567890)` is `"1234567890"` |
| `Organize.OrganizeSubmissionsInfoByContest` | src/atcoder/submitted_codes_downloader.py:96-118 | the two loops compute the fold `Organized`: latest accepted per problem, then appended by contest, in Python dict order |
| `Organize.LatestByProblem` | src/atcoder/submitted_codes_downloader.py:106-112 | `info_by_problem` after the first loop: a non-AC record is skipped, an AC record is stored under its problem id; `LastAcceptedIsKept` and `KeptIsLastAccepted` show it holds each problem's last AC record |
| `Organize.GroupByContest` | src/atcoder/submitted_codes_downloader.py:114-116 | `info_by_contest` after the second loop: each value appended to its contest's list; `GroupIsOfContest` shows each list is that contest's values in order |
| `OrderedDicts.Dict.Put` | src/atcoder/submitted_codes_downloader.py:112 | `d[k] = v`: its ensures give the new map, with the key order unchanged for an existing key and the new key appended otherwise |
| `OrderedDicts.Dict.Values` | src/atcoder/submitted_codes_downloader.py:115 | `d.values()`: its ensures give one value per key, in key order |
| `OrderedDicts.Append` | src/atcoder/submitted_codes_downloader.py:114-116 | `d[k].append(x)` on a `defaultdict(list)`: its ensures give the extended list, with a missing key first bound to `[]` at the end of the key order |
| `Organize.Organized` | src/atcoder/submitted_codes_downloader.py:96-118 | the returned grouping, the first loop then the second; the `Organized*` lemmas characterise it through `LastAccepted` |
| `Organize.AcceptedIsKept` | src/atcoder/submitted_codes_downloader.py:106-112 | every problem with an accepted record is a key of `info_by_problem` |
| `Organize.LastAcceptedIsKept` | src/atcoder/submitted_codes_downloader.py:106-112 | the record kept for a problem is its last accepted one |
| `Organize.KeptIsLastAccepted` | src/atcoder/submitted_codes_downloader.py:106-112 | every kept record is stored under its own problem id and is the last accepted record of it |
| `Organize.LatestValuesDistinct` | src/atcoder/submitted_codes_downloader.py:106-115 | the values of `info_by_problem` name each problem once |
| `Organize.OfContestMember` | src/atcoder/submitted_codes_downloader.py:114-116 | a record is among contest c's records iff it is in the input and belongs to c |
| `Organize.OfContestDistinct` | src/atcoder/submitted_codes_downloader.py:114-116 | picking one contest's records keeps problem ids distinct |
| `Organize.GroupIsOfContest` | src/atcoder/submitted_codes_downloader.py:114-116 | contest c is a key iff some record belongs to c, and its list is c's records in input order |
| `Organize.OrganizedRecord` | src/atcoder/submitted_codes_downloader.py:96-118 | every grouped record is accepted, sits under its own contest, and is the last accepted record of its problem |
| `Organize.OrganizedComplete` | src/atcoder/submitted_codes_downloader.py:96-118 | the last accepted record of every problem is grouped under its contest |
| `Organize.OrganizedUnique` | src/atcoder/submitted_codes_downloader.py:96-118 | no problem id occurs twice anywhere in the grouping |
| `Organize.OrganizedProblemIff` | src/atcoder/submitted_codes_downloader.py:96-118 | a problem appears in the grouping iff one of its records is accepted |
| `Paths.SplitPiecesHaveNoSep` | src/atcoder/submitted_codes_downloader.py:122 | no piece of `split("_")` holds an underscore |
| `Paths.JoinSplit` | src/atcoder/submitted_codes_downloader.py:122 | joining the pieces of a split gives back the string |
| `Paths.Split` | src/atcoder/submitted_codes_downloader.py:122 | `s.split(sep)`: at least one piece; `JoinSplit` and `SplitPiecesHaveNoSep` together determine the pieces |
| `Paths.LastPieceIsSuffix` | src/atcoder/submitted_codes_downloader.py:122 | the last piece is the longest suffix without the separator, and there is one piece iff the separator is absent |
| `Paths.FileStemSpec` | src/atcoder/submitted_codes_downloader.py:121-122 | the file name is the part of the problem id after its last underscore, or the whole id when it has none |
| `Paths.FileStem` | src/atcoder/submitted_codes_downloader.py:121-122 | `problem_id.split("_")[-1]`; `FileStemSpec` shows it is the part after the last underscore |
| `Paths.PathDefined` | src/atcoder/submitted_codes_downloader.py:125-126 | the lookup at line 126 succeeds: a typical90 record's stem is a key of the table (otherwise `KeyError`); `Typical90FileName` characterises it for the downloader's table |
| `Paths.FileName` | src/atcoder/submitted_codes_downloader.py:121-126 | the stem, renumbered through the table for typical90; `Typical90FileName` states the renumbered name |
| `Paths.ContainsSpec` | src/atcoder/submitted_codes_downloader.py:130-134 | Python's `in` on strings holds iff the needle occurs at some position |
| `Paths.Contains` | src/atcoder/submitted_codes_downloader.py:130-134 | Python's substring `in`; `ContainsSpec` pins it down as "occurs at some position" |
| `Paths.ExtensionSpec` | src/atcoder/submitted_codes_downloader.py:128-135 | the extension is `py`, `rs`, `cpp` or empty, each exactly when its marker occurs and no earlier marker does |
| `Paths.Extension` | src/atcoder/submitted_codes_downloader.py:128-135 | the extension chosen by the first of `Py`, `Rust`, `C++` that occurs in the language label; `ExtensionSpec` characterises each case |
| `Paths.Typical90FileName` | src/atcoder/submitted_codes_downloader.py:124-126 | a typical90 record has a file name iff its stem reads as an index below 201, and the name is then the three-digit index plus one |
| `Paths.OutputFilePath` | src/atcoder/submitted_codes_downloader.py:137-140 | `{output_dir}/{contest_id}/{file_name}.{file_extension}`; `OutputFilePathRoundTrip` and `SamePathIffSameStem` pin it down |
| `Paths.OutputFilePathRoundTrip` | src/atcoder/submitted_codes_downloader.py:120-140 | for a contest id without `/`, the path reads back as the contest id, the file name and the extension |
| `Paths.NumberTableDistinct` | src/atcoder/submitted_codes_downloader.py:124-126 | the renumbering gives distinct stems distinct file names |
| `Paths.SamePathIffSameStem` | src/atcoder/submitted_codes_downloader.py:120-140 | two records of one contest and language share a file iff their problem ids end in the same stem |
| `Paths.SubmissionUrl` | src/atcoder/submitted_codes_downloader.py:157-161 | `https://atcoder.jp/contests/{contest_id}/submissions/{id}`; `SubmissionUrlRoundTrip` shows it reads back as the contest id and id |
| `Paths.SubmissionUrlRoundTrip` | src/atcoder/submitted_codes_downloader.py:157-161 | the URL reads back as the record's contest id and submission id, for a contest id without `/` |
| `Paths.SubmissionUrlExample` | tests/atcoder/test_submitted_codes_downloader.py:35-48 | the sample record gets `https://atcoder.jp/contests/sample_contest/submissions/1234567890` |
| `Download.ExecDownload` | src/atcoder/submitted_codes_downloader.py:163-196 | organising then looping equals the step fold over the visited records' planned fetches, and every visited record has a path |
| `Download.DownloadContests` | src/atcoder/submitted_codes_downloader.py:177-183 | the outer loop equals the fold over the contests in key order |
| `Download.DownloadContest` | src/atcoder/submitted_codes_downloader.py:183-194 | the inner loop equals the step fold: skip when the file exists and overwrite is off, otherwise fetch and create the file |
| `Download.ShouldFetch` | src/atcoder/submitted_codes_downloader.py:185-186 | the negation of the skip test at line 185: fetch unless the file exists and overwrite is off |
| `Download.Step` | src/atcoder/submitted_codes_downloader.py:183-194 | one inner iteration: skip, or fetch and add the path to the existing files; `RunExisting`, `RunOverwrite` and `RunNoOverwrite` state its effect over a whole run |
| `Download.Run` | src/atcoder/submitted_codes_downloader.py:183-194 | the inner iterations over a sequence of planned fetches, in order |
| `Download.Planned` | src/atcoder/submitted_codes_downloader.py:183-188 | the path and URL each record would be fetched with, one per record (its ensures: as many fetches as records); `PlannedAt` states the i-th entry |
| `Download.InVisitOrder` | src/atcoder/submitted_codes_downloader.py:177-183 | the records of the first n contests, contest by contest in key order; `InVisitOrderMember` characterises its members |
| `Download.Visited` | src/atcoder/submitted_codes_downloader.py:172-183 | the order in which `exec_download` visits records; `VisitedMember` shows they are exactly each problem's last accepted record |
| `Download.RunContests` | src/atcoder/submitted_codes_downloader.py:177-194 | the outer loop over the first n contests as a fold of the inner loop; `RunContestsFlat` shows it equals `Run` over the visited records |
| `Download.InVisitOrderMember` | src/atcoder/submitted_codes_downloader.py:177-183 | a record is visited in the first n contests iff it is in one of their lists |
| `Download.VisitedMember` | src/atcoder/submitted_codes_downloader.py:172-183 | the visited records are exactly the last accepted record of each problem |
| `Download.VisitedPathsDefined` | src/atcoder/submitted_codes_downloader.py:125-126 | when every last accepted record has a path, every visited record has one |
| `Download.PlannedAppend` | src/atcoder/submitted_codes_downloader.py:177-188 | the plan of a concatenation is the concatenation of the plans |
| `Download.PlannedAt` | src/atcoder/submitted_codes_downloader.py:183-188 | the fetch planned at position i is that of the i-th record |
| `Download.RunAppend` | src/atcoder/submitted_codes_downloader.py:177-194 | running two plans one after the other is running their concatenation |
| `Download.RunContestsFlat` | src/atcoder/submitted_codes_downloader.py:177-194 | running contest by contest equals running all records in visiting order |
| `Download.RunExisting` | src/atcoder/submitted_codes_downloader.py:185-192 | afterwards the existing files are the old ones plus every planned path |
| `Download.RunOverwrite` | src/atcoder/submitted_codes_downloader.py:185-186 | with overwrite on nothing is skipped: the fetches are the plan, in order |
| `Download.RunFetchesPlanned` | src/atcoder/submitted_codes_downloader.py:185-190 | earlier fetches are kept, and every new fetch is a planned one |
| `Download.RunNoOverwrite` | src/atcoder/submitted_codes_downloader.py:185-192 | with overwrite off, no fetched file existed before, none is fetched twice, and the existing files are the old plus the fetched |
| `Download.RunNoOverwriteFresh` | src/atcoder/submitted_codes_downloader.py:185-192 | with overwrite off, the fetched paths are the planned paths that were missing, each once |
| `Download.RunPlannedOverwrite` | src/atcoder/submitted_codes_downloader.py:183-192 | with overwrite on, the i-th fetch is the i-th record's path and URL |
| `Download.ExecDownloadExisting` | src/atcoder/submitted_codes_downloader.py:163-196 | afterwards the output file of every visited record exists, and no other file was added |
| `Download.ExecDownloadOverwrite` | src/atcoder/submitted_codes_downloader.py:163-196 | with overwrite on, every visited record is fetched in visiting order, to its output path from its submission URL |
| `Download.ExecDownloadNoOverwrite` | src/atcoder/submitted_codes_downloader.py:163-196 | with overwrite off, exactly the missing files of visited records are fetched, each once |

## Left out

- `get_submissions_info` (lines 59-94): paging through the submissions API over HTTP, with sleeps. The records are a parameter of `ExecDownload`.
- `_get_submitted_code` (lines 142-155): Selenium page loading. A fetch is recorded as its path and URL, not its contents. On a timeout the source returns an unbound `code_text`, which raises; this is not modelled.
- Browser driver setup in `__init__` (lines 33-39) and `driver.quit()` (line 196): external resources.
- The default arguments of `__init__` (`./submitted`, 2016): `NewDownloader` takes every setting explicitly.
- The default `overwrite=False` of `exec_download` (line 165): `ExecDownload` takes `overwrite` explicitly.
- `first_epoch_second` (line 30) depends on the local time zone. It is given as a number and is used only by `get_submissions_info`.
- `mkdir` (line 181), the file write and `sleep(2)` (lines 191-194): the file system is the set of existing paths, and a written file joins it.
- `pathlib.Path` normalisation (lines 137-139, 185): paths are compared as plain strings. So `./submitted/a/x.py` and `submitted/a/x.py` are distinct here.
- `Download.ExecDownload`: a typical90 record whose file stem is not in the table makes the source raise `KeyError` at line 126. This is a precondition here: every last accepted record must have a path.
- `Download.OutputPathOf`: a record without a path gets the placeholder path `""`. `ExecDownload`'s precondition ensures that this placeholder is never used.
- `Download.ExecDownloadNoOverwrite`: speaks of planned paths through `OutputPathOf` rather than `OutputFilePath`, because it holds without the typical90 precondition.
- `Paths.SubmissionUrlRoundTrip`: requires a contest id without `/`. AtCoder contest ids have none, and with one the URL is ambiguous.
- `Records.Submission`: records always carry a language. The case at tests/atcoder/test_submitted_codes_downloader.py:21-31 passes a record without one and expects `x.py`. The code at line 128 would raise `KeyError` on it, and this model follows the code.
- `Records.Submission`: the submission id is modelled as the API's non-negative integer. The URL case in the repository's tests passes the id as the string `"1234567890"`; `str()` of that string is the same text, so the URL is the same.
- `zfill` on a signed string: the numbers are positive, so the sign rule of `str.zfill` is not modelled.
