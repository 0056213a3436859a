# Submission grader — a Dafny model of `evaluate_submission.py`

The grading script checks a student's submission directory for three required files. It reads the
classification report `model_performance.txt`. From it the script pulls out the accuracy and the
average per-class F1 score. It then maps the two numbers to 50, 75, 100 or 150 points, and exits
with status 0 only when both thresholds are met (accuracy ≥ 0.85 and F1 ≥ 0.80).

The model has five modules:

- `Wrappers`: the `Option` type.
- `Strings`: the Python string built-ins the script uses: `strip()`, `split()`, `split('\n')` and
  `startswith`, over `seq<char>`. The whitespace set is the one of `str.isspace()`, which is what
  `strip()`, `split()` and the regular-expression class `\s` use.
- `Decimals`: `float()` on decimal text, with values as exact reals.
- `ReportParser`: `parse_classification_report`. The method `ParseClassificationReport` keeps the
  source's loop. It overwrites the accuracy and appends to the F1 list, and it is proved equal to the
  declarative `Report(lines)`. All the lemmas are stated about `Report(lines)`.
- `Grading`: `check_submission` and the exit status. The method `CheckSubmission` keeps the
  source's order of checks and early returns, and it is proved equal to the declarative
  `Grade(present, report)`.

The file system is an input. `present` is the set of file names that exist in the submission
directory. `ReadResult` is what reading the report gives: its text, or the message of the exception
the read raised.

The `float()` call at line 25 is not guarded. The `try` covers only lines 30-31. So an `accuracy`
line whose capture is no number ends the script with an uncaught `ValueError`. Examples are
`accuracy .` and `accuracy 1.2.3`. `check_submission` then returns no tuple, although its docstring
(line 43) says it returns one. The model follows the code: the parser returns `ValueError`, the
check returns `Crashed`, and the exit status is 1, as for any uncaught exception in CPython.

## Model

| member | source | states |
|---|---|---|
| Strings.StripRemovesOuterSpace | scripts/evaluate_submission.py:20 | `strip()` yields a contiguous slice with only whitespace cut off on both sides, and the result neither starts nor ends with whitespace |
| Strings.SplitLines | scripts/evaluate_submission.py:15 | `split('\n')` yields at least one piece, no piece contains a newline, and joining the pieces with newlines gives back the text |
| Strings.SplitLinesOfJoinLines | scripts/evaluate_submission.py:15 | splitting newline-joined, newline-free pieces gives back exactly those pieces (the inverse direction) |
| Strings.SplitWhitespaceTokens | scripts/evaluate_submission.py:27 | `split()` yields non-empty tokens without whitespace whose concatenation is exactly the non-whitespace characters of the line |
| Strings.SplitWhitespaceOfAllSpace | scripts/evaluate_submission.py:27 | a line of nothing but whitespace splits into no tokens |
| Strings.SplitWhitespaceOfPaddedToken | scripts/evaluate_submission.py:27 | after a whitespace run of any length, a token followed by whitespace or the end of the line comes out whole as the next token, and the split goes on after it; with the all-space case this fixes `split()` on every line, so `parts[3]` is the fourth maximal run of non-whitespace |
| Strings.SplitWhitespaceOfJoinSpaced | scripts/evaluate_submission.py:27 | splitting space-separated non-empty tokens gives back exactly those tokens |
| Decimals.ParseUnsignedAcceptsExactly | scripts/evaluate_submission.py:25 | an unsigned `float()` succeeds exactly on digits and points with at most one point and at least one digit |
| Decimals.ParseFloatAcceptsExactly | scripts/evaluate_submission.py:30 | `float()` succeeds exactly on such a decimal, possibly behind one `+` or `-`, and an unsigned decimal keeps its unsigned value |
| Decimals.ParseFloatAcceptsExamples | scripts/evaluate_submission.py:25 | `0.85`, `1.` and `.5` read as 0.85, 1 and 0.5 |
| Decimals.ParseFloatRejectsExamples | scripts/evaluate_submission.py:25 | the `[\d.]+` captures `.` and `1.2.3` are no numbers |
| ReportParser.MatchAt | scripts/evaluate_submission.py:23 | a match of `accuracy\s+([\d.]+)` at one position captures a non-empty run of digits and points |
| ReportParser.MatchAtSound | scripts/evaluate_submission.py:23 | a match at `p` is the keyword at `p`, then a non-empty whitespace run ending before a non-space character, then the capture, which is followed by the end of the line or by a character that is neither digit nor point (the greedy group) |
| ReportParser.MatchAtComplete | scripts/evaluate_submission.py:23 | the keyword at `p`, a non-empty whitespace run and then a digit or point make the pattern match at `p`, with the capture starting at that character |
| ReportParser.FirstMatch | scripts/evaluate_submission.py:23 | the search position is the first one at or after the start where the pattern matches, or the end of the line |
| ReportParser.SearchAccuracyIsLeftmost | scripts/evaluate_submission.py:23 | `re.search` finds nothing exactly when the pattern matches at no position, and otherwise returns the capture of the leftmost match |
| ReportParser.ScanLine | scripts/evaluate_submission.py:20-33 | one pass of the loop body yields the line's accuracy reading and its row F1, and an `accuracy` line never contributes an F1 (the `elif`) |
| ReportParser.ParseClassificationReport | scripts/evaluate_submission.py:11-38 | the imperative scan returns exactly `Report` of the newline-split text: the last accuracy, the mean of the collected F1 values (0 without rows), or `ValueError` |
| ReportParser.AccuracyIsLastReading | scripts/evaluate_submission.py:16-25 | the accuracy is none exactly when no line yields a reading, and otherwise it is the reading of a line after which no line yields one |
| ReportParser.ValueErrorIffUnparsableLine | scripts/evaluate_submission.py:23-25 | parsing raises `ValueError` exactly when some line is an `accuracy` line whose capture is no number |
| ReportParser.RowScoresAreRowValues | scripts/evaluate_submission.py:26-33 | a value is averaged exactly when some line that starts with a digit has it as its numeric fourth token, and there are no more values than lines |
| ReportParser.RowScoresAppend | scripts/evaluate_submission.py:28-31 | each further line appends its row F1, if it has one, to the averaged list, so the list holds the row values in line order, each once |
| ReportParser.NoRowsGiveZeroF1 | scripts/evaluate_submission.py:36 | without a class row nothing is collected and the F1 is 0 |
| ReportParser.ReportOfConcatenation | scripts/evaluate_submission.py:19-33 | scanning two blocks of lines in sequence: the second block's accuracy wins when it has one, and the F1 values of both blocks are collected in order |
| ReportParser.SkippedLineChangesNothing | scripts/evaluate_submission.py:28-33 | a line with no reading and no F1 (too few tokens, or a fourth token that `float()` rejects) leaves the result unchanged |
| ReportParser.EmptyReport | scripts/evaluate_submission.py:15-38 | an empty report has no accuracy and an F1 of 0 |
| ReportParser.AccuracyLinesAreNotRows | scripts/evaluate_submission.py:21-26 | a line that starts with `accuracy` after stripping starts with a letter, so the row test never accepts it: the `elif` changes no F1 value |
| ReportParser.MeanBounds | scripts/evaluate_submission.py:36 | the mean of a non-empty list of values within bounds lies within those bounds |
| ReportParser.F1BetweenMinAndMax | scripts/evaluate_submission.py:36 | the average F1 lies between the smallest and the largest class F1 |
| ReportParser.F1InUnitInterval | scripts/evaluate_submission.py:36 | class F1 values in [0, 1] give an average F1 in [0, 1] |
| ReportParser.UnparsableCaptureExample | scripts/evaluate_submission.py:23-25 | the line `accuracy .` matches the pattern, but its capture is no number |
| ReportParser.AccuracyReadExample | scripts/evaluate_submission.py:21-25 | the line `accuracy 0.85` reads as accuracy 0.85 |
| ReportParser.RowF1Example | scripts/evaluate_submission.py:26-31 | the row `1 0 0 .5` contributes its fourth column, 0.5 |
| Grading.FirstMissing | scripts/evaluate_submission.py:55-58 | the index returned is the first required file from the start index on that is absent, or the end of the list when every one is present |
| Grading.FindMissingFile | scripts/evaluate_submission.py:54-58 | the loop over the required files returns the first missing one in list order, or none |
| Grading.Points | scripts/evaluate_submission.py:83-97 | points are 50, 75, 100 or 150; 150 exactly when both thresholds (inclusive) are met; at least 100 exactly when the accuracy threshold is met; 75 or 150 exactly when the F1 threshold is met |
| Grading.Verdict | scripts/evaluate_submission.py:86-97 | each verdict message goes with exactly one of the four point values |
| Grading.ScoreMetrics | scripts/evaluate_submission.py:79-101 | the threshold block returns the scored evaluation: pass flag, both metrics, points, and the accuracy, F1 and verdict messages in that order |
| Grading.CheckSubmission | scripts/evaluate_submission.py:40-101 | the sequence of checks with early returns gives exactly `Grade` of the present files and the read result |
| Grading.ExitCode | scripts/evaluate_submission.py:113 | the status is 0 or 1, and it is 0 exactly when an evaluation was returned and it passed |
| Grading.MissingFileEndsCheck | scripts/evaluate_submission.py:46-58 | when the k-th required file is the first one missing, the check fails with 0 points and the single message naming that file |
| Grading.MissingFileIgnoresReport | scripts/evaluate_submission.py:54-58 | while a required file is missing, the report plays no part and the result has 0 points |
| Grading.ReadErrorFails | scripts/evaluate_submission.py:60-66 | with every file present but the report unreadable, the check fails with 0 points and the single read-error message |
| Grading.MissingAccuracyFails | scripts/evaluate_submission.py:71-73 | with the report read but no accuracy found, the check fails with 0 points and the single could-not-parse message |
| Grading.CrashIffUnparsableAccuracy | scripts/evaluate_submission.py:69 | the check ends in the uncaught `ValueError` exactly when every file is present, the report is read and parsing it raises |
| Grading.EvaluationShape | scripts/evaluate_submission.py:52-101 | every returned evaluation is either a failure (not passed, no metrics, 0 points, one message) or a score of 50 to 150 points with both metrics and exactly the accuracy, F1 and verdict messages; it passes exactly at 150 points |
| Grading.PassedMeetsBothThresholds | scripts/evaluate_submission.py:99 | a passing evaluation has an accuracy of at least 0.85 and an F1 of at least 0.80 |
| Grading.PointsMonotone | scripts/evaluate_submission.py:83-97 | raising either metric never lowers the points |
| Grading.ThresholdExamples | scripts/evaluate_submission.py:83-84 | both thresholds are inclusive: 0.85/0.80 gives 150 and passes, just below either threshold gives 75 or 100, 0/0 gives 50 |
| Grading.ExitCodeZeroIffFullPoints | scripts/evaluate_submission.py:99-113 | the script exits with 0 exactly when the check returned 150 points |

## Left out

- File-system access (lines 45, 56, 62-63): the existence checks and the read are inputs (`present`, `ReadResult`). The directory name `submission` and path joining are not modelled.
- Exception text (line 65): the message of the read exception is an opaque string carried in `ReadFailure`.
- Output (lines 104-110): the printed `Passed:`/`Points:`/`Feedback:` lines are not modelled; the feedback is a list of `Message` values, one constructor per message text of the source.
- Number formatting (lines 79-80): `:.3f` is not modelled; `AccuracyLine` and `F1Line` carry the value itself.
- Lines 75-77: the F1 returned by the parser is always a number, so this branch is unreachable and has no counterpart in the model.
- Line 36: with no rows the source returns the integer `0`; the model returns the real 0, which compares and scores the same.
- Floating point: all values are exact reals; IEEE 754 rounding in `float()`, in the sum and in the division is not modelled, so a mean that lands exactly on 0.80 in exact arithmetic may compare differently in the source.
- Decimals.ParseFloat: accepts only an optional sign followed by digits with at most one point; Python's `float()` also accepts exponents (`1e-1`), `inf`, `nan`, underscores between digits and non-ASCII digits, so a fourth row token of those forms contributes nothing in the model but a value in the source. For accuracy captures of ASCII digits and points this is exactly Python's behaviour.
- ReportParser.RowF1: `\d` in Python 3 also matches non-ASCII decimal digits (in the row test at line 26 and in the capture at line 23); the model recognises ASCII digits only.
- The `__main__` block (lines 103-104) is modelled only through `ExitCode` of the checked outcome.
