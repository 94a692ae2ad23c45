# Homework tracker: a verified model of its bookkeeping core

The application is a small Flask server that tracks students' homework repositories on GitHub. It keeps:

- a roster of student records (`name`, `repo`, five phase `scores`);
- a per-student state map (`last_known_pushed_at`, `last_viewed_at`, `commits_count`);
- settings;
- a response cache;
- a score-change history.

It awards badges and ranks a leaderboard. It exists in two copies:

- `src/xueyuanzuoye/stu_homework.py`, the current one, modelled in full;
- the older root `stu_homework.py`, whose own variants are modelled beside it: the batched poller and add/update without scores. Its `normalize_settings`, `repo_owner_and_name`, `normalize_repo_url`, `parse_import_text`, import handler and delete handler are the same code as the current copy, apart from comments. They share one model, and the table cites both copies.

This project models that core in Dafny and proves what the code promises.

## Modules

- **Model of Python itself.**
  - `Wrappers`: `Option`.
  - `Json`: decoded JSON values and Python's `int()`, truthiness and `==` against an int. `int()` of a string skips its whitespace, takes an optional sign, accepts single underscores between digits and the decimal digits of every script, and refuses more than 4300 digits.
  - `PyStr`: `strip`, `split`, `splitlines`, `str.split()`, decimal rendering and string `<=`.
- **Normalisers.**
  - `Scores`: `clamp_score`, `init_scores`, and the record-normalisation loop of `load_students`.
  - `Settings`: `normalize_settings`.
- **`ResponseCache`**: the `api_cache` dict as a class with `Get`, `Set` and `Invalidate`. It takes an explicit clock and a TTL of 60.
- **Addresses and commit counts.**
  - `RepoUrl`: `repo_owner_and_name`, `normalize_repo_url`, `extract_github_username`, `get_avatar_url`.
  - `CommitCount`: the decision logic of `fetch_commits_count` over abstract HTTP replies, including the `page=N>; rel="last"` match on the Link header. That header is the `rel="last"` link of RFC 8288 (Web Linking), section 3.
- **Pollers.**
  - `Reconcile`: the current `check_all`. It is a loop that updates the state map in place and saves after each changed student; the saves are kept as a ghost log.
  - `BatchedCheck`: the root `check_all`. It updates push times only and saves once at the end.
- **`Badges`**: `calculate_badges`. The 41 `if ...: badges.append(...)` tests are a rule table walked in source order, followed by the sort by `(level rank, name)`.
- **Roster handlers.**
  - `Roster`: the add, update, delete and score handlers.
  - `LegacyRoster`: the root add and update.
  - `ScoreHistory`: `record_score_change`.
- **Import.**
  - `ImportText`: `parse_import_text`.
  - `ImportMerge`: the import handler, which collects entries and runs the merge loop.
- **`Leaderboard`**: the stable descending sort and the 1-based ranks.

**Handlers.** Each handler takes the request body and the roster as loaded, and yields the HTTP status (`Reply`) and the roster that is saved. An exception the handler does not catch is the reply `ServerError` (HTTP 500). A typical case is `.strip()` on a truthy non-string.

**The import does not keep roster uniqueness.** The add, update, delete and score handlers keep the invariant `Roster.Unique`: no two records share a string name or a string repository. The import handler does not. Two cases break it:

- The same new name given twice, with two unused repositories, is appended twice (`ImportMerge.ImportMayDuplicateName`).
- A known name is given a repository that another record already holds (`ImportMerge.ImportMayDuplicateRepo`).

Both lemmas state the code's behaviour. The code does not say which behaviour is intended, so they are not listed as findings.

## Model

| member | source | states |
|---|---|---|
| Json.ParseInt | src/xueyuanzuoye/stu_homework.py:76 | `int(s)` of a string succeeds only when `s` holds a decimal digit |
| Json.PyInt | src/xueyuanzuoye/stu_homework.py:76 | `int(v)` of an int is that int; of null, a list or an object it raises |
| Json.PyIntOfEqual | src/xueyuanzuoye/stu_homework.py:76 | a value equal to an int `n` under Python `==` converts to `n` |
| Json.ParseIntOfIntToString | src/xueyuanzuoye/stu_homework.py:76 | `int(str(n)) == n` for every int of at most 4300 digits |
| Json.ParseIntUnderscores | src/xueyuanzuoye/stu_homework.py:76 | `int("1_000") == 1000` |
| Json.ParseIntBadUnderscores | src/xueyuanzuoye/stu_homework.py:76 | `"1__0"`, `"_1"` and `"1_"` raise |
| Json.ParseIntFullWidth | src/xueyuanzuoye/stu_homework.py:76 | the full-width digits `１００` give 100 |
| Json.ParseIntArabicIndic | src/xueyuanzuoye/stu_homework.py:76 | the Arabic-Indic digit three gives 3 |
| Json.ParseIntSpaces | src/xueyuanzuoye/stu_homework.py:76 | `int(" -42\n") == -42` |
| Json.ParseIntOfDigits | src/xueyuanzuoye/stu_homework.py:638 | `int()` of a non-empty run of decimal digits is their value when there are at most 4300 digits, and raises when there are more |
| Json.ParseIntSeparatorNotSpace | src/xueyuanzuoye/stu_homework.py:76 | U+001C before a digit raises: it is not skipped as whitespace |
| Scores.ClampScore | src/xueyuanzuoye/stu_homework.py:75-85 | the result is in [0, 100]; it is 0 when `int(v)` raises, `int(v)` when that is in range, and 0 or 100 below or above the range |
| Scores.InitScores | src/xueyuanzuoye/stu_homework.py:88-90 | five zeros |
| Scores.ClampAll | src/xueyuanzuoye/stu_homework.py:149 | the list comprehension: same length, `clamp_score` of each element |
| Scores.NormalizeStudents | src/xueyuanzuoye/stu_homework.py:130-152 | the loop maps every item through the per-record rule; `mutated` is true exactly when some item changed |
| Scores.NormalizeRecord | src/xueyuanzuoye/stu_homework.py:131-152 | the per-record rule of the loading loop; its properties are stated by the NormalizeRecordShape and NormalizeRecordIdempotent rows |
| Scores.NormalizeRecordShape | src/xueyuanzuoye/stu_homework.py:131-152 | every dict record ends with a 5-element `scores` list of normal scores; a stored 5-element list becomes, position by position, a value equal to `clamp_score` of the old one; a missing `scores`, or one that is not a 5-element list, becomes five zeros; other keys are untouched; a legacy `score` goes exactly when `scores` was absent; non-dict items are left alone |
| Scores.NormalizeRecordIdempotent | src/xueyuanzuoye/stu_homework.py:131-152 | normalising a record twice equals normalising it once |
| Scores.LoadTwice | src/xueyuanzuoye/stu_homework.py:130-153 | a second loading pass over normalised records changes nothing and reports `mutated = false` |
| Settings.NormalizeValue | src/xueyuanzuoye/stu_homework.py:184-194 | the per-key value is in [5, 3600]; a missing value, or one `int()` refuses, gives the default; a value `int()` converts into the range is kept as converted |
| Settings.NormalizeSettings | src/xueyuanzuoye/stu_homework.py:181-195 | both keys are in [5, 3600]; non-dict input gives the defaults 300 and 60; the root copy at stu_homework.py:53-67 is the same code |
| Settings.MissingFallsBackToDefault | src/xueyuanzuoye/stu_homework.py:186-190 | values that are missing or that `int()` refuses give exactly the defaults |
| Settings.ClampsEachKey | src/xueyuanzuoye/stu_homework.py:191-194 | values below 5 become 5 and values above 3600 become 3600 |
| Settings.NormalizeSettingsIdempotent | stu_homework.py:53-67 | normalising the normalised settings gives them back |
| ResponseCache.Cache.constructor | src/xueyuanzuoye/stu_homework.py:21-24 | the two initial slots, empty, timestamp 0 |
| ResponseCache.Cache.Get | src/xueyuanzuoye/stu_homework.py:220-228 | a hit exactly when the key is present, its data is not null and fewer than 60 seconds have passed; a hit returns the stored data |
| ResponseCache.Cache.Set | src/xueyuanzuoye/stu_homework.py:231-237 | overwrites only that key; `Get` of it hits before 60 s and misses from 60 s on; other keys are unaffected |
| ResponseCache.Cache.Invalidate | src/xueyuanzuoye/stu_homework.py:240-244 | same keys, every slot cleared, every `Get` misses |
| ResponseCache.CacheScenario | test_system.py:111-137 | the cache test of the project's script, proved from the cache contracts: a stored value hits at once and at 59 s, misses at 60 s, and misses after invalidation |
| RepoUrl.RepoOwnerAndName | src/xueyuanzuoye/stu_homework.py:305-317 | a pair exactly when the cleaned path has a `/`; owner and name contain no `/` and are the path's first two segments (empty ones included); the root copy at stu_homework.py:336-348 is the same code |
| RepoUrl.OwnerAndNameOfRepoPath | src/xueyuanzuoye/stu_homework.py:307-317 | `/o/n`, `/o/n/` and `/o/n.git` all give `(o, n)`: the trailing `/`, leading `/` and `.git` are removed |
| RepoUrl.NormalizeRepoUrl | stu_homework.py:351-352 | no surrounding whitespace, no longer than the input |
| RepoUrl.NormalizeRepoUrlIsPadded | stu_homework.py:351-352 | the normalised address is a piece of the input with only whitespace before and after it; it is empty exactly when the input is all whitespace |
| PyStr.StripIsPadded | stu_homework.py:352 | `strip()` keeps a piece of the string with only whitespace around it, and gives `""` exactly for an all-whitespace string |
| ImportText.StripPadded | src/xueyuanzuoye/stu_homework.py:568 | stripping whitespace-padded text that neither starts nor ends with whitespace gives that text back |
| RepoUrl.ExtractGithubUsername | src/xueyuanzuoye/stu_homework.py:325-328 | the owner exactly when there is a non-empty one |
| RepoUrl.GetAvatarUrl | src/xueyuanzuoye/stu_homework.py:331-336 | exactly when there is a username: `https://github.com/<user>.png?size=<size>` |
| RepoUrl.AvatarOfRepository | test_system.py:56-59 | for a path `/owner/name`, the avatar is `https://github.com/owner.png?size=80` |
| CommitCount.FetchCommitsCount | src/xueyuanzuoye/stu_homework.py:612-650 | the decision logic over the two replies; its properties are stated by the SentinelExactlyOnFailure, CountFromSecondPage, CountOfLinkHeader and NextThenLastHeader rows |
| CommitCount.SentinelExactlyOnFailure | src/xueyuanzuoye/stu_homework.py:612-650 | a malformed address or a first 404 gives 0; -1 exactly when the first request raises or answers other than 200 or 404, when the last-page number has more than 4300 digits (the ValueError of `int()`), or, without a usable last-page link, when the second request raises or answers 200 with a non-JSON body |
| CommitCount.CountFromSecondPage | src/xueyuanzuoye/stu_homework.py:642-647 | without a `rel="last"` link, a 200 list on the second request gives its length and any other status gives 0 |
| CommitCount.LastPageOfLinkHeader | src/xueyuanzuoye/stu_homework.py:633-638 | in a Link header with `page=N>; rel="last"`, and no `rel="last"` before that link target, the captured group is the digits of N; the header then passes the `rel="last"` guard |
| CommitCount.CountOfLinkHeader | src/xueyuanzuoye/stu_homework.py:633-638 | a first 200 with such a header gives the count N when N has at most 4300 digits, and -1 otherwise |
| CommitCount.PageCountIsInt | src/xueyuanzuoye/stu_homework.py:638 | the count taken from the captured digits is `int()` of them, -1 standing for its ValueError |
| CommitCount.NoMatchBefore | src/xueyuanzuoye/stu_homework.py:636 | the pattern cannot match before a `page=` when no `rel="last"` occurs in front of it |
| CommitCount.NextThenLastHeader | src/xueyuanzuoye/stu_homework.py:633-638 | GitHub's usual header, a `rel="next"` link followed by the `rel="last"` link to `page=N`, captures the digits of N and gives the count N when N has at most 4300 digits |
| CommitCount.LastPageAtTarget | src/xueyuanzuoye/stu_homework.py:636-638 | the first `page=<digits>>; rel="last"` match captures exactly those digits |
| CommitCount.MatchContainsLastRel | src/xueyuanzuoye/stu_homework.py:633-636 | a regex match implies the `'rel="last"' in link` guard |
| Reconcile.CheckAll | src/xueyuanzuoye/stu_homework.py:247-284 | the loop's final state and ghost save log are those of the pass over all students; it fails (`None`) exactly when the pass raised |
| Reconcile.KeyOfIsPythonEquality | src/xueyuanzuoye/stu_homework.py:262 | state keys follow Python dict lookup: a number names the key of an int it equals, a string only its own key, a list or object raises |
| Reconcile.Visit | src/xueyuanzuoye/stu_homework.py:251-282 | one student of the loop; its properties are stated by the VisitRaisesIff, VisitSavesIffChanged, VisitEffect and SkippedLeavesState rows |
| Reconcile.VisitRaisesIff | src/xueyuanzuoye/stu_homework.py:251-279 | a visit raises exactly on a non-dict item, or, for a visited record, on a non-string repository or an unhashable name when the answer is used |
| Reconcile.PassRaisesIff | src/xueyuanzuoye/stu_homework.py:251-282 | the pass raises exactly when one of its students raises |
| Reconcile.VisitSavesIffChanged | src/xueyuanzuoye/stu_homework.py:279-282 | a student triggers a save exactly when it changed the state |
| Reconcile.VisitEffect | src/xueyuanzuoye/stu_homework.py:259-282 | only the student's entry changes, and no key appears but the student's; a truthy `pushed_at` is stored, otherwise the old one is kept; an existing `last_viewed_at` is kept, and a missing one becomes null when a new push time is stored and stays missing otherwise; a count >= 0 is stored, -1 keeps the old one; every other field of the entry is kept |
| Reconcile.SkippedLeavesState | src/xueyuanzuoye/stu_homework.py:254-258 | an empty name or repo, or a failed fetch, leaves the state unchanged and saves nothing |
| Reconcile.LastSaveIsFinal | src/xueyuanzuoye/stu_homework.py:279-284 | the last snapshot saved is the returned state; no save means the state is as loaded |
| Reconcile.PassKeepsOtherEntries | src/xueyuanzuoye/stu_homework.py:251-282 | entries of names no visited student has are not touched |
| Reconcile.PassKeepsCountsKnown | src/xueyuanzuoye/stu_homework.py:272-276 | stored commit counts stay non-negative integers |
| Reconcile.PassSettles | src/xueyuanzuoye/stu_homework.py:263-276 | after the pass every visited student's entry agrees with its answer |
| Reconcile.RecheckIsQuiet | src/xueyuanzuoye/stu_homework.py:247-284 | a second pass with the same answers changes and saves nothing |
| BatchedCheck.CheckAllBatched | stu_homework.py:89-113 | the loop's result is the pass over all students: an exception aborts without saving; otherwise at most one save, after the loop, exactly when something changed |
| BatchedCheck.RootVisit | stu_homework.py:93-110 | one student of the root loop; its properties are stated by the RootVisitRaisesIff, RaisedAborts, RootPassTouchesOnlyPushTimes and AgreesWithNewerPoller rows |
| BatchedCheck.RootVisitRaisesIff | stu_homework.py:94-106 | a visit raises exactly on a non-dict item, on a visited record whose request raises, or as the newer poller's visit does for the same answer |
| BatchedCheck.RaisedAborts | stu_homework.py:97 | once a fetch raises, the whole pass raises |
| BatchedCheck.RootPassTouchesOnlyPushTimes | stu_homework.py:103-110 | every entry field but the push time and `last_viewed_at` is kept, commit counts among them; an existing `last_viewed_at` is kept and a new one is null; no entry disappears |
| BatchedCheck.RootPassUnchangedKeepsState | stu_homework.py:103-113 | a pass that reports no change leaves the state as loaded |
| BatchedCheck.AgreesWithNewerPoller | stu_homework.py:89-113 | without exceptions, the root pass ends in the state the current pass reaches without count updates |
| Badges.CalculateBadges | src/xueyuanzuoye/stu_homework.py:339-562 | the output is ordered by `(level rank, name)` and is a permutation of exactly the badges whose tests held |
| Badges.Earned | src/xueyuanzuoye/stu_homework.py:354-556 | the rule table walked in source order; its properties are stated by the CollectEarned, EarnedUpToHas and OutputHasBadge rows |
| Badges.CollectEarned | src/xueyuanzuoye/stu_homework.py:355-553 | the appends in source order give the earned list |
| Badges.SortBadges | src/xueyuanzuoye/stu_homework.py:559-560 | sorted by the key and a permutation of the input |
| Badges.CountAtLeast | src/xueyuanzuoye/stu_homework.py:411 | the count is `len(s)` exactly when every score reaches `k`, 0 exactly when none does |
| Badges.CountEq | src/xueyuanzuoye/stu_homework.py:420 | the count is the number of occurrences of `k` |
| Badges.EarnedUpToHas | src/xueyuanzuoye/stu_homework.py:355-553 | a badge name is present exactly when a rule of that name held |
| Badges.OutputHasBadge | src/xueyuanzuoye/stu_homework.py:355-560 | for a rule with a unique name, the output holds its badge exactly when its test holds |
| Badges.AvgAtLeastIff | src/xueyuanzuoye/stu_homework.py:350 | `avg >= k` is `total >= 5k` |
| Badges.SuperGrinderIff | src/xueyuanzuoye/stu_homework.py:473-475 | 超级肝帝 appears exactly when `commits_count >= 150` |
| Badges.PerfectionistIff | src/xueyuanzuoye/stu_homework.py:491-493 | 完美主义者 appears exactly when all five scores are 100 |
| Badges.TopStudentIff | src/xueyuanzuoye/stu_homework.py:465-467 | 学霸 appears exactly when avg >= 90, that is total >= 450 |
| Badges.AllHundredsEarnsEveryTier | test_system.py:80-90 | five scores of 100 earn 完美主义者, 学霸 and 神级学霸 together |
| Badges.ImprovingIntegerForm | src/xueyuanzuoye/stu_homework.py:438-443 | 进步之星 is `2B > 3A + 90` and `B >= 210`, where A is the sum of the first two scores and B of the last three |
| Badges.SteadyIntegerForm | src/xueyuanzuoye/stu_homework.py:450-457 | 稳定发挥 is `sum of (5s - T)^2 < 12500` and `T >= 350` |
| Badges.VarianceInIntegers | src/xueyuanzuoye/stu_homework.py:452-454 | the variance is the integer sum of `(5s - T)^2`, over 125 |
| ImportText.ParseImportText | src/xueyuanzuoye/stu_homework.py:565-590 | the loop's entries are the per-line parses of the non-blank lines, one per non-blank line; the root copy at stu_homework.py:355-379 is the same code |
| ImportText.ParseLine | src/xueyuanzuoye/stu_homework.py:568-589 | an entry with a repository always has a name; a missing repository is only possible with a comma or tab split |
| ImportText.NameFromRepo | src/xueyuanzuoye/stu_homework.py:585-587 | a non-empty repository gives a non-empty name |
| ImportText.ParseLinesCount | stu_homework.py:357-360 | exactly one entry per non-blank line |
| ImportText.CommaLine | src/xueyuanzuoye/stu_homework.py:573-574 | `name,repo` parses to `(name, repo)`: the split is at the first comma, both sides stripped |
| ImportText.CommaBeforeTab | src/xueyuanzuoye/stu_homework.py:573-576 | a comma takes precedence over a tab |
| ImportText.TabLine | src/xueyuanzuoye/stu_homework.py:575-576 | `name<TAB>repo` without a comma parses to `(name, repo)` |
| ImportText.SpaceLine | src/xueyuanzuoye/stu_homework.py:577-580 | `name repo` parses to `(name, repo)` |
| ImportText.AddressOnlyLine | src/xueyuanzuoye/stu_homework.py:581-587 | a lone address takes its owner as the name (`https://github.com/bob/proj2` gives `bob`) |
| ImportText.ParseRender | stu_homework.py:355-379 | parsing `name,repo` lines joined by newlines gives back the entries |
| ImportMerge.MergeEntries | src/xueyuanzuoye/stu_homework.py:868-892 | the loop computes `MergeAll`; `added + updated + skipped` is the number of entries; the root copy at stu_homework.py:228-253 is the same code |
| ImportMerge.ByName | src/xueyuanzuoye/stu_homework.py:869 | `existing_by_name[name]` is the last loaded record with that truthy name |
| ImportMerge.StringReposHolds | src/xueyuanzuoye/stu_homework.py:870 | the strings of `existing_repos` are exactly the non-empty repositories of the roster |
| ImportMerge.MergeAllMergedFrom | stu_homework.py:235-253 | loaded records stay in place and change at most their repository; each appended record has a new name and a repository neither loaded nor appended earlier |
| ImportMerge.KnownNameGetsRepo | src/xueyuanzuoye/stu_homework.py:880-884 | a known name's last loaded record ends the step with the entry's repository |
| ImportMerge.Step | src/xueyuanzuoye/stu_homework.py:874-892 | one entry of the merge loop: `added + updated + skipped` grows by exactly one and the list never becomes shorter than the loaded roster; the KnownNameGetsRepo, StepSkipsIncomplete and MergeAllMergedFrom rows state its effect |
| ImportMerge.StepSkipsIncomplete | src/xueyuanzuoye/stu_homework.py:877-879 | an entry without a name or repository only counts as skipped |
| ImportMerge.ImportMayDuplicateName | src/xueyuanzuoye/stu_homework.py:886-892 | a new name given twice with two unused repositories is appended twice, breaking uniqueness |
| ImportMerge.ImportMayDuplicateRepo | src/xueyuanzuoye/stu_homework.py:880-883 | a known name takes a repository another record holds, breaking uniqueness |
| ImportMerge.CollectItems | src/xueyuanzuoye/stu_homework.py:852-860 | the loop over `data["students"]` gives the truthy name/repo pairs of the dict items, or fails on a non-string repository |
| ImportMerge.CollectEntries | src/xueyuanzuoye/stu_homework.py:851-863 | `new_entries` is the list part followed by the parsed text |
| ImportMerge.ImportStudents | src/xueyuanzuoye/stu_homework.py:849-895 | 500 when collecting raises or the roster or entries hold unhashable names; 400 with no entries; otherwise 200 with the merged roster and counts; nothing is saved unless 200; the root copy at stu_homework.py:210-256 is the same code |
| Roster.StrippedField | src/xueyuanzuoye/stu_homework.py:901-902 | a falsy value gives `""`; a string is stripped; anything else raises |
| Roster.RequestScores | src/xueyuanzuoye/stu_homework.py:903-907 | five clamped scores from a 5-element list, else five zeros |
| Roster.FirstNamed | src/xueyuanzuoye/stu_homework.py:939 | the first record with that name, `None` exactly when no record has it |
| Roster.Add | src/xueyuanzuoye/stu_homework.py:898-920 | a refusal saves the roster unchanged; success appends exactly one record |
| Roster.AddAccepts | src/xueyuanzuoye/stu_homework.py:909-918 | success exactly when both fields are non-empty and neither is taken; the new record is name, repo, clamped scores |
| Roster.AddRefusals | src/xueyuanzuoye/stu_homework.py:909-916 | 400 for an empty field, else 409 `name exists`, else 409 `repo exists` |
| Roster.AddKeepsUnique | src/xueyuanzuoye/stu_homework.py:912-918 | adding keeps names and repositories unique |
| Roster.Update | src/xueyuanzuoye/stu_homework.py:923-954 | a refusal saves the roster unchanged; the length never changes |
| Roster.UpdateRefusals | src/xueyuanzuoye/stu_homework.py:936-942 | 400 for an empty name, repository or old name; 404 when no record has the old name |
| Roster.UpdateConflicts | src/xueyuanzuoye/stu_homework.py:939-947 | once the old name's first record is found, 409 `name exists` when the new name differs and is taken, else 409 `repo exists` when another record holds the repository |
| Roster.UpdateAccepts | src/xueyuanzuoye/stu_homework.py:936-947 | success exactly when the fields are non-empty, a record has the old name, the new name is free (if different) and no other record holds the repository |
| Roster.UpdateEffect | src/xueyuanzuoye/stu_homework.py:949-953 | only the first record with the old name changes: new name and repository, and the scores when any were sent |
| Roster.UpdateDefaultsOldName | src/xueyuanzuoye/stu_homework.py:928 | without `old_name` the record is looked up by the new name |
| Roster.UpdateKeepsUnique | src/xueyuanzuoye/stu_homework.py:944-951 | updating keeps names and repositories unique |
| Roster.WithoutName | src/xueyuanzuoye/stu_homework.py:966 | a record is in the result exactly when it is in the roster with another name; same length exactly when none has the name |
| Roster.WithoutNameOfConcat | src/xueyuanzuoye/stu_homework.py:966 | the filter works record by record in order: filtering `a + b` is filtering `a` then `b` |
| Roster.Delete | src/xueyuanzuoye/stu_homework.py:957-970 | a refusal saves the roster unchanged; success means a record had the name and saves the roster without that name's records; a non-empty unknown name gives 404; the root copy at stu_homework.py:303-316 is the same code |
| Roster.DeleteAccepts | src/xueyuanzuoye/stu_homework.py:960-970 | 500 when `.strip()` raises, 400 for an empty name, and success exactly when the name is non-empty and some record has it, with the records of other names saved |
| Roster.DeleteKeepsUnique | src/xueyuanzuoye/stu_homework.py:966-970 | deleting keeps uniqueness |
| Roster.SetScore | src/xueyuanzuoye/stu_homework.py:1206-1237 | a refusal saves nothing and records no change; the length never changes |
| Roster.PostScore | src/xueyuanzuoye/stu_homework.py:1206-1239 | the reply, roster and change of `SetScore`; after a success the response cache keeps its keys and every lookup misses; a refusal leaves the cache alone |
| Roster.SetScoreAccepts | src/xueyuanzuoye/stu_homework.py:1209-1225 | 400 `missing name` without a name, 400 `missing phase or score` without either; 400 `invalid phase or score` when `int(phase)` raises, 400 `invalid phase` outside [0, 4], 404 for an unknown name; success exactly when the phase is an integer in [0, 4] and the name exists |
| Roster.StripRaisesServerError | src/xueyuanzuoye/stu_homework.py:901-928 | a `.strip()` that raises on a truthy non-string makes the handler answer 500 and keep the roster: the name in add, update, delete and score, the repository in add and update, `old_name` in update |
| Roster.SetScoreEffect | src/xueyuanzuoye/stu_homework.py:1222-1237 | only the first record with the name changes, its phase score becoming `clamp_score(score)`; a change is recorded exactly when the stored value differed |
| Roster.WithScoreEffect | src/xueyuanzuoye/stu_homework.py:1227-1231 | a malformed list is reset first; the other phases and fields are kept |
| Roster.SetScoreKeepsUnique | src/xueyuanzuoye/stu_homework.py:1227-1237 | setting a score keeps uniqueness |
| LegacyRoster.Add | stu_homework.py:259-275 | a refusal saves the roster unchanged; success appends exactly one record |
| LegacyRoster.AddAccepts | stu_homework.py:262-274 | success exactly when both fields are non-empty and neither is taken; the record is `{"name", "repo"}` only |
| LegacyRoster.AddRefusals | stu_homework.py:264-271 | 400 for an empty field, else 409 `name exists`, else 409 `repo exists` |
| LegacyRoster.AddSameReply | stu_homework.py:259-275 | the root add answers exactly as the current one |
| LegacyRoster.AddSameRecord | stu_homework.py:273 | on success the records differ only in the current copy's `scores` |
| LegacyRoster.AddKeepsUnique | stu_homework.py:266-274 | the root add keeps uniqueness |
| LegacyRoster.Update | stu_homework.py:278-300 | a refusal saves the roster unchanged; the length never changes |
| LegacyRoster.UpdateAccepts | stu_homework.py:283-299 | success exactly under the same conditions as the current copy; then only the first record with the old name changes, in its name and repository |
| LegacyRoster.UpdateAgrees | stu_homework.py:278-300 | the same reply as the current update, and the same roster for a request without scores |
| LegacyRoster.UpdateKeepsUnique | stu_homework.py:291-299 | the root update keeps uniqueness |
| ScoreHistory.RecordScoreChange | src/xueyuanzuoye/stu_homework.py:1058-1075 | the student's history gets length `min(old + 1, 100)` and ends with the new event, preceded by the most recent old events; other students are unchanged; the bound of 100 is kept |
| Leaderboard.SortField | src/xueyuanzuoye/stu_homework.py:793-798 | a sort key exactly for `avg_score`, `total_score` and `commits_count` |
| Leaderboard.SortDescending | src/xueyuanzuoye/stu_homework.py:794-798 | non-increasing in the key, a permutation, and rows with equal keys keep their input order |
| Leaderboard.StableOrderUnique | src/xueyuanzuoye/stu_homework.py:794-798 | two non-increasing orders with the same rows per key, in the same order, are equal, so the sort contract fixes the result |
| Leaderboard.RankLeaderboard | src/xueyuanzuoye/stu_homework.py:791-802 | ranks 1..n in output order; for a sort field the order is the stable descending sort, for any other `sort_by` the input order |

## Left out

- **Flask and the file system.** Flask, `jsonify`, reply bodies other than the status and error text, file loading and saving, and the corrupt-file backup are plumbing. Loading becomes a parameter and saving becomes a returned value or a ghost log.
- **The network.** The GitHub calls in `fetch_repo_info` and `fetch_commits_count` are oracle inputs (`Probe`, `RootProbe`, `FirstReply`, `SecondReply`).
- **Concurrency.** `background_loop`, the daemon thread, `time.sleep` and `cache_lock` are left out; the cache and the pollers are modelled sequentially.
- **Clocks and dates.** `time.time()` and `iso_now()` are parameters. ISO-8601 date parsing is left out, as are:
  - the two time-of-day badges, which take the shifted hour as an optional input;
  - `updated_since_view`, the 30-day histogram and `mark_viewed`.
- **`urlparse`** is library code. The address functions take its path component as input (`urlPath` in the import).
- ImportText.NameFromRepo, ImportText.ParseLine, Reconcile.CheckAll, BatchedCheck.CheckAllBatched and CommitCount.FetchCommitsCount: `urlparse`'s ValueError is not modelled. It raises on a malformed address such as an unbalanced `[` in the host. `repo_owner_and_name` calls it outside the `try` of both fetch functions. In the import that would be a 500. In the pollers it would abort the whole pass, like the exceptions `CheckAll` reports as `None`. The models take a path component, so every address has one.
- **Other handlers.** The student details, remarks and CSV export handlers and the leaderboard row building (avatar and badge lookups per student) are outside the bookkeeping core.
- **Floats.** Floats are exact reals. The float test `std_dev < 10` could differ from the exact one only at the boundary Σ(5s−T)² = 12500.
- **`Infinity` and `NaN`.** `json.loads` accepts them, but a JSON number of the model is a finite real, so neither is modelled. On them the code behaves differently from every finite number:
  - `int(nan)` raises ValueError, which `clamp_score` and `normalize_settings` catch;
  - `int(inf)` raises OverflowError, which neither catches;
  - so an infinite score or phase is 400 `invalid phase or score` in the score handler, and an infinite score is a 500 in the add and update handlers and in the loading loop;
  - an infinite setting makes `normalize_settings` raise.
- **Python equality is modelled exactly in four places only.** They are the `normalized != s["scores"]` test, the stored commit count, the keys of the poller's state map, where `1 == 1.0 == True`, and the `old_score != score` test of the score handler. Elsewhere, equal numbers of different types (`1` and `1.0`) are treated as different:
  - as dict and set keys in the import merge;
  - in the `pushed_at` comparison.
- Roster.Add, Roster.Update, Roster.Delete, Roster.SetScore, LegacyRoster.Add, LegacyRoster.Update and ImportMerge.ImportStudents: non-dict roster items are not modelled. The roster is a sequence of records (JSON objects). A loaded roster item that is not a dict makes `s.get` raise, which would be a 500 reply.
- **Request bodies.** A request body or state entry that is not a JSON object is left out. `request.get_json() or {}` is taken to yield an object.
- ImportMerge.ImportStudents: some errors are all one 500. When the loaded roster or an entry holds an unhashable name (a list or an object) or an unhashable repository, the reply is the generic `ServerError`. Which of those raises first is not modelled.
- Json.ParseInt: the 4300-digit limit is that of Python 3.11 and later; `sys.set_int_max_str_digits` is not modelled. The digit table follows Unicode 15.
- Reconcile.CheckAll: number keys are not merged on reload. `json.dump` writes a number key as a string, so a reloaded state may merge keys that the model keeps apart. State entries and the repository answer are taken to be JSON objects.
- Leaderboard.SortDescending: sorted as a value. It and `Badges.SortBadges` sort a sequence value rather than the Python list in place. Aliasing of those lists is not modelled.
- ResponseCache.Cache.Set: no `now` stamp check. `Set` stores the given `now` and does not check that it is a real clock reading.
