/**
  `check_submission` and the exit status of the script: the required files
  are checked in order, the report is read and parsed, and the two metrics
  are mapped to points and feedback. The file system is an input: the set of
  file names present in the submission directory and what reading the
  report gives.
 */
module Grading {
  import opened Wrappers
  import opened Strings
  import opened ReportParser

  const ReportFile: string := "model_performance.txt"

  /** The files a submission must contain, in the order they are checked. */
  const RequiredFiles: seq<string> := [ReportFile, "confusion_matrix.png", "roc_curve.png"]

  const AccuracyThreshold: real := 0.85
  const F1Threshold: real := 0.80

  /** What reading the report gives: its text, or the message of the
      exception the read raised. */
  datatype ReadResult = Contents(text: string) | ReadError(reason: string)

  /** The feedback entries, one constructor per message of the source; the
      two metric lines carry their value instead of its three-decimal text. */
  datatype Message =
    | MissingFile(name: string)        // "Missing required file: <name>"
    | ReadFailure(reason: string)      // "Error reading model_performance.txt: <reason>"
    | AccuracyNotParsed                // "Could not parse accuracy from model_performance.txt"
    | AccuracyLine(accuracy: real)     // "Accuracy: <accuracy>"
    | F1Line(f1: real)                 // "F1 Score: <f1>"
    | AllCriteriaMet                   // "All criteria met! Excellent work."
    | AccuracyOnlyMet                  // "Accuracy requirement met, but F1 score needs improvement."
    | F1OnlyMet                        // "F1 score requirement met, but accuracy needs improvement."
    | NeitherMet                       // "Neither accuracy nor F1 score meets requirements. Review your model."

  /** The tuple `(passed_all, accuracy, f1_score, points, feedback)`. */
  datatype Evaluation = Evaluation(passed: bool, accuracy: Option<real>, f1: Option<real>, points: int, feedback: seq<Message>)

  /** A returned evaluation, or the `ValueError` escaping from the parser. */
  datatype Outcome = Returned(evaluation: Evaluation) | Crashed

  /** Index of the first name of `files` from `i` on that is not present,
      or `|files|` when all of them are. */
  function FirstMissing(files: seq<string>, present: set<string>, i: nat): (k: nat)
    requires i <= |files|
    ensures i <= k <= |files|
    ensures forall j :: i <= j < k ==> files[j] in present
    ensures k < |files| ==> files[k] !in present
    decreases |files| - i
  {
    if i == |files| || files[i] !in present then i else FirstMissing(files, present, i + 1)
  }

  /** Skipping names known to be present does not change the first missing one. */
  lemma {:induction false} FirstMissingSkips(files: seq<string>, present: set<string>, i: nat)
    requires i <= |files|
    requires forall j :: 0 <= j < i ==> files[j] in present
    ensures FirstMissing(files, present, 0) == FirstMissing(files, present, i)
  {
    if i > 0 {
      FirstMissingSkips(files, present, i - 1);
    }
  }

  predicate AccuracyPasses(accuracy: real) {
    accuracy >= AccuracyThreshold
  }

  predicate F1Passes(f1: real) {
    f1 >= F1Threshold
  }

  /** The points of a parsed report. Both thresholds are inclusive; the
      accuracy alone is worth more than the F1 alone. */
  function Points(accuracy: real, f1: real): (p: int)
    ensures p in {50, 75, 100, 150}
    ensures p == 150 <==> AccuracyPasses(accuracy) && F1Passes(f1)
    ensures p >= 100 <==> AccuracyPasses(accuracy)
    ensures (p == 75 || p == 150) <==> F1Passes(f1)
  {
    if AccuracyPasses(accuracy) && F1Passes(f1) then 150
    else if AccuracyPasses(accuracy) then 100
    else if F1Passes(f1) then 75
    else 50
  }

  /** The verdict line that goes with the points. */
  function Verdict(accuracy: real, f1: real): (m: Message)
    ensures m == AllCriteriaMet <==> Points(accuracy, f1) == 150
    ensures m == AccuracyOnlyMet <==> Points(accuracy, f1) == 100
    ensures m == F1OnlyMet <==> Points(accuracy, f1) == 75
    ensures m == NeitherMet <==> Points(accuracy, f1) == 50
  {
    if AccuracyPasses(accuracy) && F1Passes(f1) then AllCriteriaMet
    else if AccuracyPasses(accuracy) then AccuracyOnlyMet
    else if F1Passes(f1) then F1OnlyMet
    else NeitherMet
  }

  /** The result of every early return: failed, no metrics, no points, and
      the single message that explains why. */
  function Failure(m: Message): Evaluation {
    Evaluation(false, None, None, 0, [m])
  }

  /** The result of a report whose accuracy was found. */
  function Scored(accuracy: real, f1: real): Evaluation {
    Evaluation(AccuracyPasses(accuracy) && F1Passes(f1), Some(accuracy), Some(f1), Points(accuracy, f1),
               [AccuracyLine(accuracy), F1Line(f1), Verdict(accuracy, f1)])
  }

  /** What `check_submission` returns, as one expression over its inputs. */
  function Grade(present: set<string>, report: ReadResult): Outcome {
    var k := FirstMissing(RequiredFiles, present, 0);
    if k < |RequiredFiles| then Returned(Failure(MissingFile(RequiredFiles[k])))
    else GradeReport(report)
  }

  /** The part of `Grade` after every required file was found. */
  function GradeReport(report: ReadResult): Outcome {
    match report
    case ReadError(reason) => Returned(Failure(ReadFailure(reason)))
    case Contents(text) => GradeParsed(Report(SplitLines(text)))
  }

  /** The part of `Grade` after the report was parsed. */
  function GradeParsed(parsed: ParseResult): Outcome {
    match parsed
    case ValueError => Crashed
    case Parsed(None, _) => Returned(Failure(AccuracyNotParsed))
    case Parsed(Some(accuracy), f1) => Returned(Scored(accuracy, f1))
  }

  /** The loop over the required files: the first one that is missing, if any. */
  method FindMissingFile(present: set<string>) returns (missing: Option<string>)
    ensures var k := FirstMissing(RequiredFiles, present, 0);
      missing == if k < |RequiredFiles| then Some(RequiredFiles[k]) else None
  {
    var i := 0;
    while i < |RequiredFiles|
      invariant 0 <= i <= |RequiredFiles|
      invariant forall j :: 0 <= j < i ==> RequiredFiles[j] in present
    {
      var file := RequiredFiles[i];
      if file !in present {
        FirstMissingSkips(RequiredFiles, present, i);
        return Some(file);
      }
      i := i + 1;
    }
    FirstMissingSkips(RequiredFiles, present, i);
    return None;
  }

  /** The threshold checks: the two metric lines, then the points and the
      verdict line of the first matching case. */
  method ScoreMetrics(accuracy: real, f1Score: real) returns (evaluation: Evaluation)
    ensures evaluation == Scored(accuracy, f1Score)
  {
    var feedback: seq<Message> := [];
    feedback := feedback + [AccuracyLine(accuracy)];
    feedback := feedback + [F1Line(f1Score)];
    var accPass := accuracy >= AccuracyThreshold;
    var f1Pass := f1Score >= F1Threshold;
    var points: int;
    if accPass && f1Pass {
      points := 150;
      feedback := feedback + [AllCriteriaMet];
    } else if accPass {
      points := 100;
      feedback := feedback + [AccuracyOnlyMet];
    } else if f1Pass {
      points := 75;
      feedback := feedback + [F1OnlyMet];
    } else {
      points := 50;
      feedback := feedback + [NeitherMet];
    }
    var passedAll := accPass && f1Pass;
    return Evaluation(passedAll, Some(accuracy), Some(f1Score), points, feedback);
  }

  /** The source's sequence of checks with early returns. */
  method CheckSubmission(present: set<string>, report: ReadResult) returns (outcome: Outcome)
    ensures outcome == Grade(present, report)
  {
    var feedback: seq<Message> := [];
    var missing := FindMissingFile(present);
    if missing.Some? {
      feedback := feedback + [MissingFile(missing.value)];
      return Returned(Evaluation(false, None, None, 0, feedback));
    }
    assert Grade(present, report) == GradeReport(report);
    if report.ReadError? {
      feedback := feedback + [ReadFailure(report.reason)];
      return Returned(Evaluation(false, None, None, 0, feedback));
    }
    var parsed := ParseClassificationReport(report.text);
    assert GradeReport(report) == GradeParsed(parsed);
    if parsed.ValueError? {
      return Crashed;
    }
    if parsed.accuracy.None? {
      feedback := feedback + [AccuracyNotParsed];
      return Returned(Evaluation(false, None, None, 0, feedback));
    }
    var evaluation := ScoreMetrics(parsed.accuracy.value, parsed.f1);
    return Returned(evaluation);
  }

  /** `sys.exit(0 if passed else 1)`; an escaping exception also ends the
      interpreter with status 1. */
  function ExitCode(outcome: Outcome): (code: int)
    ensures code == 0 || code == 1
    ensures code == 0 <==> outcome.Returned? && outcome.evaluation.passed
  {
    match outcome
    case Returned(evaluation) => if evaluation.passed then 0 else 1
    case Crashed => 1
  }

  /** The first missing file, in the order of `RequiredFiles`, ends the check
      with 0 points and that one message. */
  lemma MissingFileEndsCheck(present: set<string>, report: ReadResult, k: nat)
    requires k < |RequiredFiles| && RequiredFiles[k] !in present
    requires forall j :: 0 <= j < k ==> RequiredFiles[j] in present
    ensures Grade(present, report) == Returned(Evaluation(false, None, None, 0, [MissingFile(RequiredFiles[k])]))
  {
    FirstMissingSkips(RequiredFiles, present, k);
  }

  /** With a required file missing nothing is read: the report does not matter. */
  lemma MissingFileIgnoresReport(present: set<string>, report1: ReadResult, report2: ReadResult)
    requires exists j :: 0 <= j < |RequiredFiles| && RequiredFiles[j] !in present
    ensures Grade(present, report1) == Grade(present, report2)
    ensures Grade(present, report1).Returned? && Grade(present, report1).evaluation.points == 0
  {
    var j :| 0 <= j < |RequiredFiles| && RequiredFiles[j] !in present;
    var k := FirstMissing(RequiredFiles, present, 0);
    assert k <= j;
  }

  /** Every file present but the report unreadable: 0 points, one message. */
  lemma ReadErrorFails(present: set<string>, reason: string)
    requires forall j :: 0 <= j < |RequiredFiles| ==> RequiredFiles[j] in present
    ensures Grade(present, ReadError(reason)) == Returned(Evaluation(false, None, None, 0, [ReadFailure(reason)]))
  {
    FirstMissingSkips(RequiredFiles, present, |RequiredFiles|);
  }

  /** Every file present, the report read, but no accuracy found: 0 points,
      one message. */
  lemma MissingAccuracyFails(present: set<string>, text: string)
    requires forall j :: 0 <= j < |RequiredFiles| ==> RequiredFiles[j] in present
    requires Report(SplitLines(text)).Parsed? && Report(SplitLines(text)).accuracy.None?
    ensures Grade(present, Contents(text)) == Returned(Evaluation(false, None, None, 0, [AccuracyNotParsed]))
  {
    FirstMissingSkips(RequiredFiles, present, |RequiredFiles|);
  }

  /** The check ends in the uncaught `ValueError` exactly when every file is
      present, the report is read, and an accuracy capture is no number. */
  lemma CrashIffUnparsableAccuracy(present: set<string>, report: ReadResult)
    ensures Grade(present, report) == Crashed <==>
      && (forall j :: 0 <= j < |RequiredFiles| ==> RequiredFiles[j] in present)
      && report.Contents?
      && Report(SplitLines(report.text)).ValueError?
  {
    if forall j :: 0 <= j < |RequiredFiles| ==> RequiredFiles[j] in present {
      FirstMissingSkips(RequiredFiles, present, |RequiredFiles|);
    }
  }

  /** Every returned evaluation is one of two shapes: a failure with 0 points
      and one message, or a score of 50 to 150 points with the accuracy line,
      the F1 line and the verdict, in that order. It passes exactly when it
      has 150 points. */
  lemma EvaluationShape(present: set<string>, report: ReadResult)
    requires Grade(present, report).Returned?
    ensures var e := Grade(present, report).evaluation;
      && e.points in {0, 50, 75, 100, 150}
      && (e.passed <==> e.points == 150)
      && (e.points == 0 <==> |e.feedback| == 1)
      && (e.points == 0 ==> !e.passed && e.accuracy.None? && e.f1.None?)
      && (e.points != 0 ==>
            && e.accuracy.Some? && e.f1.Some?
            && e.feedback == [AccuracyLine(e.accuracy.value), F1Line(e.f1.value), Verdict(e.accuracy.value, e.f1.value)])
  {
  }

  /** A passing submission meets both thresholds. */
  lemma PassedMeetsBothThresholds(present: set<string>, report: ReadResult)
    requires Grade(present, report).Returned? && Grade(present, report).evaluation.passed
    ensures var e := Grade(present, report).evaluation;
      e.accuracy.Some? && e.f1.Some? && e.accuracy.value >= 0.85 && e.f1.value >= 0.80
  {
  }

  /** Raising either metric never lowers the points. */
  lemma PointsMonotone(accuracy: real, f1: real, accuracy': real, f1': real)
    requires accuracy <= accuracy' && f1 <= f1'
    ensures Points(accuracy, f1) <= Points(accuracy', f1')
  {
  }

  /** Both thresholds are inclusive. */
  lemma ThresholdExamples()
    ensures Points(0.85, 0.80) == 150 && Scored(0.85, 0.80).passed
    ensures Points(0.849999, 0.80) == 75 && !Scored(0.849999, 0.80).passed
    ensures Points(0.85, 0.799999) == 100
    ensures Points(0.0, 0.0) == 50
  {
  }

  /** The script exits with 0 exactly when the check returned 150 points. */
  lemma ExitCodeZeroIffFullPoints(present: set<string>, report: ReadResult)
    ensures ExitCode(Grade(present, report)) == 0 <==>
      Grade(present, report).Returned? && Grade(present, report).evaluation.points == 150
  {
    if Grade(present, report).Returned? {
      EvaluationShape(present, report);
    }
  }
}
