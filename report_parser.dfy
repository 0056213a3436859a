/**
  `parse_classification_report`: scans a classification report line by line,
  keeps the value of the last `accuracy` line and averages the F1 column of
  the per-class rows.
 */
module ReportParser {
  import opened Wrappers
  import opened Strings
  import opened Decimals

  /** What the parser hands back: the last accuracy (or none) and the mean F1,
      or the `ValueError` that escapes when an accuracy capture is no number. */
  datatype ParseResult = Parsed(accuracy: Option<real>, f1: real) | ValueError

  const AccuracyKey: string := "accuracy"

  /** Length of the run of characters of the class `[\d.]` at the front of `s`. */
  function DigitDotRun(s: string): (n: nat)
    ensures n <= |s|
    ensures forall i :: 0 <= i < n ==> IsDigit(s[i]) || s[i] == '.'
    ensures n < |s| ==> !IsDigit(s[n]) && s[n] != '.'
  {
    if s == [] || !(IsDigit(s[0]) || s[0] == '.') then 0 else 1 + DigitDotRun(s[1..])
  }

  /** The group captured by `accuracy\s+([\d.]+)` when the match starts at
      position `p`: `\s+` must take the whole run of whitespace (otherwise the
      next character is whitespace, not `[\d.]`), and the greedy group then
      takes the whole run of digits and points. */
  function MatchAt(s: string, p: nat): (g: Option<string>)
    ensures g.Some? ==> |g.value| > 0 && forall i :: 0 <= i < |g.value| ==> IsDigit(g.value[i]) || g.value[i] == '.'
  {
    if p + |AccuracyKey| <= |s| && s[p..p + |AccuracyKey|] == AccuracyKey then
      var q := p + |AccuracyKey|;
      var w := LeadingSpaces(s[q..]);
      var n := DigitDotRun(s[q + w..]);
      if w > 0 && n > 0 then Some(s[q + w..q + w + n]) else None
    else
      None
  }

  /** A match at `p` is the keyword, then a non-empty run of whitespace that
      ends before a non-space character, then the capture, which is the whole
      run of digits and points from there on. */
  lemma MatchAtSound(s: string, p: nat)
    requires MatchAt(s, p).Some?
    ensures var g := MatchAt(s, p).value;
      exists j :: p + |AccuracyKey| < j <= j + |g| <= |s|
        && s[p..p + |AccuracyKey|] == AccuracyKey
        && AllSpace(s[p + |AccuracyKey|..j]) && !IsSpace(s[j])
        && g == s[j..j + |g|]
        && (j + |g| == |s| || !(IsDigit(s[j + |g|]) || s[j + |g|] == '.'))
  {
    var q := p + |AccuracyKey|;
    var w := LeadingSpaces(s[q..]);
    var j := q + w;
    var n := DigitDotRun(s[j..]);
    assert s[q..][..w] == s[q..j];
    assert s[j] == s[j..][0];
    if j + n < |s| {
      assert s[j + n] == s[j..][n];
    }
  }

  /** The keyword at `p`, a non-empty run of whitespace and then a digit or a
      point: the pattern matches at `p`, and its capture starts there. */
  lemma MatchAtComplete(s: string, p: nat, j: nat)
    requires p + |AccuracyKey| < j < |s|
    requires s[p..p + |AccuracyKey|] == AccuracyKey
    requires AllSpace(s[p + |AccuracyKey|..j])
    requires IsDigit(s[j]) || s[j] == '.'
    ensures MatchAt(s, p).Some?
    ensures MatchAt(s, p).value == s[j..j + |MatchAt(s, p).value|]
  {
    var q := p + |AccuracyKey|;
    var t := s[q..];
    var w := LeadingSpaces(t);
    assert forall i :: 0 <= i < j - q ==> t[i] == s[q..j][i];
    assert t[j - q] == s[j];
    assert w == j - q;
    assert s[q + w..] == s[j..];
  }

  /** The leftmost position at or after `p` where the pattern matches, or `|s|`. */
  function FirstMatch(s: string, p: nat): (q: nat)
    requires p <= |s|
    ensures p <= q <= |s|
    ensures q < |s| ==> MatchAt(s, q).Some?
    ensures forall i :: p <= i < q ==> MatchAt(s, i).None?
    decreases |s| - p
  {
    if p == |s| then |s|
    else if MatchAt(s, p).Some? then p
    else FirstMatch(s, p + 1)
  }

  /** `re.search(r'accuracy\s+([\d.]+)', s).group(1)`: the group of the
      leftmost match, or none when the pattern matches nowhere. */
  function SearchAccuracy(s: string): Option<string> {
    var q := FirstMatch(s, 0);
    if q < |s| then MatchAt(s, q) else None
  }

  /** `SearchAccuracy` finds the leftmost match, and none exactly when the
      pattern matches at no position. */
  lemma SearchAccuracyIsLeftmost(s: string)
    ensures SearchAccuracy(s).None? <==> forall p :: 0 <= p < |s| ==> MatchAt(s, p).None?
    ensures SearchAccuracy(s).Some? ==>
      exists p :: 0 <= p < |s| && MatchAt(s, p) == SearchAccuracy(s) && forall i :: 0 <= i < p ==> MatchAt(s, i).None?
  {
  }

  /** How one report line bears on the accuracy. */
  datatype AccuracyReading = NoReading | Reading(value: real) | Unparsable

  /** A stripped line starting with `accuracy` whose pattern matches gives the
      number of the capture; a capture that is no number is `Unparsable`. */
  function AccuracyOf(line: string): AccuracyReading {
    var s := Strip(line);
    if !StartsWith(s, AccuracyKey) then NoReading
    else
      match SearchAccuracy(s)
      case None => NoReading
      case Some(g) =>
        match ParseFloat(g)
        case None => Unparsable
        case Some(v) => Reading(v)
  }

  /** The F1 value one line contributes: a stripped line that starts with a
      digit and has a fourth token that is a number; any other line
      contributes nothing. */
  function RowF1(line: string): Option<real> {
    var s := Strip(line);
    if s == [] || !IsDigit(s[0]) then None
    else
      var parts := SplitWhitespace(s);
      if |parts| < 4 then None else ParseFloat(parts[3])
  }

  /** `f` applied to every element. */
  function MapSeq<T, U>(f: T -> U, xs: seq<T>): (ys: seq<U>)
    ensures |ys| == |xs|
  {
    seq(|xs|, i requires 0 <= i < |xs| => f(xs[i]))
  }

  lemma MapSeqAt<T, U>(f: T -> U, xs: seq<T>, i: nat)
    requires i < |xs|
    ensures MapSeq(f, xs)[i] == f(xs[i])
  {
  }

  lemma MapSeqAppend<T, U>(f: T -> U, a: seq<T>, b: seq<T>)
    ensures MapSeq(f, a + b) == MapSeq(f, a) + MapSeq(f, b)
  {
    var l, r := MapSeq(f, a + b), MapSeq(f, a) + MapSeq(f, b);
    forall k | 0 <= k < |l|
      ensures l[k] == r[k]
    {
      if k >= |a| {
        assert (a + b)[k] == b[k - |a|];
      }
    }
  }

  /** The accuracy reading of every line. */
  function Readings(lines: seq<string>): seq<AccuracyReading> {
    MapSeq(AccuracyOf, lines)
  }

  /** The F1 contribution of every line. */
  function Contributions(lines: seq<string>): seq<Option<real>> {
    MapSeq(RowF1, lines)
  }

  /** The value of the last reading, if any: the variable the scan overwrites. */
  function LastReading(rs: seq<AccuracyReading>): Option<real> {
    if rs == [] then None
    else if rs[|rs| - 1].Reading? then Some(rs[|rs| - 1].value)
    else LastReading(rs[..|rs| - 1])
  }

  /** The contributed values in order: the list the scan appends to. */
  function Collected(fs: seq<Option<real>>): seq<real> {
    if fs == [] then []
    else Collected(fs[..|fs| - 1]) + if fs[|fs| - 1].Some? then [fs[|fs| - 1].value] else []
  }

  predicate AnyUnparsable(rs: seq<AccuracyReading>) {
    exists i :: 0 <= i < |rs| && rs[i].Unparsable?
  }

  function Sum(xs: seq<real>): real {
    if xs == [] then 0.0 else Sum(xs[..|xs| - 1]) + xs[|xs| - 1]
  }

  /** The arithmetic mean, with 0 for the empty sequence. */
  function Mean(xs: seq<real>): real {
    if |xs| == 0 then 0.0 else Sum(xs) / |xs| as real
  }

  /** The F1 values of the class rows of `lines`, in order. */
  function RowScores(lines: seq<string>): seq<real> {
    Collected(Contributions(lines))
  }

  /** What parsing the lines amounts to, stated for all lines at once: a
      `ValueError` if any accuracy capture is no number, otherwise the last
      reading and the mean of the row values. */
  function Report(lines: seq<string>): ParseResult {
    Summary(Readings(lines), Contributions(lines))
  }

  /** The outcome of a scan from the readings and contributions of its lines. */
  function Summary(rs: seq<AccuracyReading>, fs: seq<Option<real>>): ParseResult {
    if AnyUnparsable(rs) then ValueError
    else Parsed(LastReading(rs), Mean(Collected(fs)))
  }

  lemma LastReadingStep(rs: seq<AccuracyReading>, i: nat)
    requires i < |rs|
    ensures LastReading(rs[..i + 1]) == if rs[i].Reading? then Some(rs[i].value) else LastReading(rs[..i])
  {
    assert rs[..i + 1][..i] == rs[..i];
  }

  lemma AnyUnparsableStep(rs: seq<AccuracyReading>, i: nat)
    requires i < |rs|
    ensures AnyUnparsable(rs[..i + 1]) <==> AnyUnparsable(rs[..i]) || rs[i].Unparsable?
  {
    assert forall j :: 0 <= j < i ==> rs[..i + 1][j] == rs[..i][j];
    assert rs[..i + 1][i] == rs[i];
  }

  lemma CollectedStep(fs: seq<Option<real>>, i: nat)
    requires i < |fs|
    ensures Collected(fs[..i + 1]) == Collected(fs[..i]) + if fs[i].Some? then [fs[i].value] else []
  {
    assert fs[..i + 1][..i] == fs[..i];
  }

  /** The body of the scan for one line: the `if`/`elif` of the source, on
      the stripped line. */
  method ScanLine(rawLine: string) returns (reading: AccuracyReading, f1: Option<real>)
    ensures reading == AccuracyOf(rawLine)
    ensures f1 == RowF1(rawLine)
    ensures reading != NoReading ==> f1 == None
  {
    reading, f1 := NoReading, None;
    var line := Strip(rawLine);
    if StartsWith(line, AccuracyKey) {
      AccuracyLinesAreNotRows(rawLine);
      var group := SearchAccuracy(line);
      if group.Some? {
        var value := ParseFloat(group.value);
        reading := if value.None? then Unparsable else Reading(value.value);
      }
    } else if line != [] && IsDigit(line[0]) {
      var parts := SplitWhitespace(line);
      if |parts| >= 4 {
        f1 := ParseFloat(parts[3]);
      }
    }
  }

  /** The scan of the source: one pass over the lines, overwriting the
      accuracy and appending to the F1 list; a capture that is no number
      ends the scan with `ValueError`. */
  method ParseClassificationReport(reportText: string) returns (r: ParseResult)
    ensures r == Report(SplitLines(reportText))
  {
    var lines := SplitLines(reportText);
    ghost var rs, fs := Readings(lines), Contributions(lines);
    var accuracy: Option<real> := None;
    var f1Scores: seq<real> := [];
    var i := 0;
    while i < |lines|
      invariant 0 <= i <= |lines|
      invariant accuracy == LastReading(rs[..i])
      invariant f1Scores == Collected(fs[..i])
      invariant !AnyUnparsable(rs[..i])
    {
      LastReadingStep(rs, i);
      CollectedStep(fs, i);
      AnyUnparsableStep(rs, i);
      MapSeqAt(AccuracyOf, lines, i);
      MapSeqAt(RowF1, lines, i);
      var reading, f1 := ScanLine(lines[i]);
      if reading.Unparsable? {
        assert rs[i].Unparsable?;
        return ValueError;
      } else if reading.Reading? {
        accuracy := Some(reading.value);
      } else if f1.Some? {
        f1Scores := f1Scores + [f1.value];
      }
      i := i + 1;
    }
    assert rs[..i] == rs && fs[..i] == fs;
    var f1Avg := if |f1Scores| > 0 then Sum(f1Scores) / |f1Scores| as real else 0.0;
    return Parsed(accuracy, f1Avg);
  }

  /** A later accuracy reading overwrites an earlier one. */
  lemma {:induction false} LastReadingAppend(a: seq<AccuracyReading>, b: seq<AccuracyReading>)
    ensures LastReading(a + b) == if LastReading(b).Some? then LastReading(b) else LastReading(a)
    decreases |b|
  {
    if b == [] {
      assert a + b == a;
    } else {
      var ab := a + b;
      assert ab[..|ab| - 1] == a + b[..|b| - 1];
      LastReadingAppend(a, b[..|b| - 1]);
    }
  }

  /** The last reading is none exactly when no reading exists, and otherwise
      the value of a reading after which there is no other. */
  lemma {:induction false} LastReadingIsLast(rs: seq<AccuracyReading>)
    ensures LastReading(rs).None? <==> forall i :: 0 <= i < |rs| ==> !rs[i].Reading?
    ensures LastReading(rs).Some? ==>
      exists i :: 0 <= i < |rs| && rs[i] == Reading(LastReading(rs).value)
        && forall j :: i < j < |rs| ==> !rs[j].Reading?
  {
    LastReadingNoneIff(rs);
    if LastReading(rs).Some? {
      LastReadingHasWitness(rs);
    }
  }

  lemma {:induction false} LastReadingNoneIff(rs: seq<AccuracyReading>)
    ensures LastReading(rs).None? <==> forall i :: 0 <= i < |rs| ==> !rs[i].Reading?
  {
    if rs != [] {
      var n := |rs| - 1;
      var init := rs[..n];
      LastReadingNoneIff(init);
      assert forall i :: 0 <= i < n ==> init[i] == rs[i];
    }
  }

  lemma {:induction false} LastReadingHasWitness(rs: seq<AccuracyReading>)
    requires LastReading(rs).Some?
    ensures exists i ::
      0 <= i < |rs| && rs[i] == Reading(LastReading(rs).value) && forall j :: i < j < |rs| ==> !rs[j].Reading?
  {
    var n := |rs| - 1;
    if rs[n].Reading? {
      assert rs[n] == Reading(LastReading(rs).value);
    } else {
      var init := rs[..n];
      assert LastReading(rs) == LastReading(init);
      LastReadingHasWitness(init);
      var i :| 0 <= i < n && init[i] == Reading(LastReading(init).value)
        && forall j :: i < j < n ==> !init[j].Reading?;
      assert rs[i] == init[i];
      assert forall j :: i < j < n ==> rs[j] == init[j];
    }
  }

  /** Collecting respects concatenation: each line contributes on its own. */
  lemma {:induction false} CollectedAppend(a: seq<Option<real>>, b: seq<Option<real>>)
    ensures Collected(a + b) == Collected(a) + Collected(b)
    decreases |b|
  {
    if b == [] {
      assert a + b == a;
    } else {
      var ab := a + b;
      assert ab[..|ab| - 1] == a + b[..|b| - 1];
      CollectedAppend(a, b[..|b| - 1]);
    }
  }

  /** The collected values are exactly the contributed ones. */
  lemma {:induction false} CollectedAreContributed(fs: seq<Option<real>>)
    ensures |Collected(fs)| <= |fs|
    ensures forall v :: v in Collected(fs) <==> exists i :: 0 <= i < |fs| && fs[i] == Some(v)
  {
    if fs != [] {
      var n := |fs| - 1;
      var init := fs[..n];
      CollectedAreContributed(init);
      assert forall i :: 0 <= i < n ==> init[i] == fs[i];
      forall v | exists i :: 0 <= i < |fs| && fs[i] == Some(v)
        ensures v in Collected(fs)
      {
        var i :| 0 <= i < |fs| && fs[i] == Some(v);
        if i < n {
          assert init[i] == Some(v);
        }
      }
    }
  }

  /** Nothing contributed, nothing collected. */
  lemma {:induction false} CollectedNone(fs: seq<Option<real>>)
    requires forall i :: 0 <= i < |fs| ==> fs[i].None?
    ensures Collected(fs) == []
  {
    if fs != [] {
      var n := |fs| - 1;
      assert forall i :: 0 <= i < n ==> fs[..n][i] == fs[i];
      CollectedNone(fs[..n]);
    }
  }

  /** The accuracy of a report is none exactly when no line has a reading,
      and otherwise the reading of a line after which no line has one. */
  lemma AccuracyIsLastReading(lines: seq<string>)
    requires Report(lines).Parsed?
    ensures Report(lines).accuracy.None? <==> forall i :: 0 <= i < |lines| ==> !AccuracyOf(lines[i]).Reading?
    ensures Report(lines).accuracy.Some? ==>
      exists i :: 0 <= i < |lines| && AccuracyOf(lines[i]) == Reading(Report(lines).accuracy.value)
        && forall j :: i < j < |lines| ==> !AccuracyOf(lines[j]).Reading?
  {
    var rs := Readings(lines);
    LastReadingIsLast(rs);
    forall i | 0 <= i < |lines| ensures rs[i] == AccuracyOf(lines[i]) {
      MapSeqAt(AccuracyOf, lines, i);
    }
  }

  /** The scan raises `ValueError` exactly when some line is an `accuracy`
      line whose capture is no number. */
  lemma ValueErrorIffUnparsableLine(lines: seq<string>)
    ensures Report(lines).ValueError? <==> exists i :: 0 <= i < |lines| && AccuracyOf(lines[i]).Unparsable?
  {
    var rs := Readings(lines);
    forall i | 0 <= i < |lines| ensures rs[i] == AccuracyOf(lines[i]) {
      MapSeqAt(AccuracyOf, lines, i);
    }
  }

  /** The averaged values are exactly the F1 values of the class rows. */
  lemma RowScoresAreRowValues(lines: seq<string>)
    ensures |RowScores(lines)| <= |lines|
    ensures forall v :: v in RowScores(lines) <==> exists i :: 0 <= i < |lines| && RowF1(lines[i]) == Some(v)
  {
    var fs := Contributions(lines);
    CollectedAreContributed(fs);
    forall i | 0 <= i < |lines| ensures fs[i] == RowF1(lines[i]) {
      MapSeqAt(RowF1, lines, i);
    }
  }

  /** Each line appends its value, if any, to the averaged list: the list is
      the row values in line order, each once. */
  lemma RowScoresAppend(lines: seq<string>, line: string)
    ensures RowScores(lines + [line]) == RowScores(lines) + if RowF1(line).Some? then [RowF1(line).value] else []
  {
    MapSeqAppend(RowF1, lines, [line]);
    var fs := Contributions([line]);
    assert fs == [RowF1(line)];
    CollectedAppend(Contributions(lines), fs);
    assert fs[..0] == [];
  }

  /** Without a class row nothing is collected and the F1 is exactly 0. */
  lemma NoRowsGiveZeroF1(lines: seq<string>)
    requires forall i :: 0 <= i < |lines| ==> RowF1(lines[i]).None?
    ensures RowScores(lines) == []
    ensures Report(lines).Parsed? ==> Report(lines).f1 == 0.0
  {
    var fs := Contributions(lines);
    forall i | 0 <= i < |lines| ensures fs[i].None? {
      MapSeqAt(RowF1, lines, i);
    }
    CollectedNone(fs);
  }

  /** Scanning two parts one after the other: the accuracy of the second
      part wins when it has one, and the values of both are collected. */
  lemma SummaryOfConcatenation(ra: seq<AccuracyReading>, fa: seq<Option<real>>, rb: seq<AccuracyReading>, fb: seq<Option<real>>)
    requires Summary(ra, fa).Parsed? && Summary(rb, fb).Parsed?
    ensures Summary(ra + rb, fa + fb).Parsed?
    ensures Summary(ra + rb, fa + fb).accuracy == if LastReading(rb).Some? then LastReading(rb) else LastReading(ra)
    ensures Collected(fa + fb) == Collected(fa) + Collected(fb)
  {
    LastReadingAppend(ra, rb);
    CollectedAppend(fa, fb);
  }

  /** Reading two texts one after the other: the accuracy of the second
      text wins when it has one, and the rows of both are averaged. */
  lemma ReportOfConcatenation(a: seq<string>, b: seq<string>)
    requires Report(a).Parsed? && Report(b).Parsed?
    ensures Report(a + b).Parsed?
    ensures Report(a + b).accuracy == if Report(b).accuracy.Some? then Report(b).accuracy else Report(a).accuracy
    ensures RowScores(a + b) == RowScores(a) + RowScores(b)
  {
    MapSeqAppend(AccuracyOf, a, b);
    MapSeqAppend(RowF1, a, b);
    SummaryOfConcatenation(Readings(a), Contributions(a), Readings(b), Contributions(b));
  }

  /** A line without reading and contribution leaves the outcome as it was. */
  lemma SummaryIgnoresSilentLine(rs: seq<AccuracyReading>, fs: seq<Option<real>>)
    ensures Summary(rs + [NoReading], fs + [None]) == Summary(rs, fs)
  {
    var rs', fs' := rs + [NoReading], fs + [None];
    assert rs'[..|rs|] == rs && fs'[..|fs|] == fs;
    assert LastReading(rs') == LastReading(rs);
    assert Collected(fs') == Collected(fs) + [];
    assert Collected(fs) + [] == Collected(fs);
    if AnyUnparsable(rs') {
      var i :| 0 <= i < |rs'| && rs'[i].Unparsable?;
      assert rs[i].Unparsable?;
    }
    if AnyUnparsable(rs) {
      var i :| 0 <= i < |rs| && rs[i].Unparsable?;
      assert rs'[i].Unparsable?;
    }
  }

  /** A line with no accuracy reading and no F1 value, such as a row with
      fewer than four tokens or an unparsable fourth token, is skipped. */
  lemma SkippedLineChangesNothing(lines: seq<string>, line: string)
    requires AccuracyOf(line) == NoReading && RowF1(line) == None
    ensures Report(lines + [line]) == Report(lines)
  {
    MapSeqAppend(AccuracyOf, lines, [line]);
    MapSeqAppend(RowF1, lines, [line]);
    assert Readings([line]) == [NoReading] && Contributions([line]) == [None];
    SummaryIgnoresSilentLine(Readings(lines), Contributions(lines));
  }

  /** The empty report has no accuracy and an F1 of 0. */
  lemma EmptyReport()
    ensures Report(SplitLines("")) == Parsed(None, 0.0)
  {
    SplitEmptyText();
    EmptyLineIsSilent();
    var lines := [""];
    assert Readings(lines)[0] == NoReading && Contributions(lines)[0] == None;
    assert Readings(lines) == [NoReading];
    assert Contributions(lines) == [None];
    assert Collected([None]) == [];
  }

  lemma SplitEmptyText()
    ensures SplitLines("") == [""]
  {
    assert Find("", '\n') == 0;
  }

  lemma EmptyLineIsSilent()
    ensures AccuracyOf("") == NoReading && RowF1("") == None
  {
    assert Strip("") == "";
  }

  /** The `elif` decides nothing: a line starting with `accuracy` starts with
      a letter, so it is never a class row. */
  lemma AccuracyLinesAreNotRows(line: string)
    ensures StartsWith(Strip(line), AccuracyKey) ==> RowF1(line).None?
    ensures AccuracyOf(line) != NoReading ==> RowF1(line).None?
  {
    var s := Strip(line);
    if StartsWith(s, AccuracyKey) {
      assert s[0] == AccuracyKey[0] == 'a';
    }
  }

  lemma {:induction false} SumBounds(xs: seq<real>, lo: real, hi: real)
    requires forall i :: 0 <= i < |xs| ==> lo <= xs[i] <= hi
    ensures |xs| as real * lo <= Sum(xs) <= |xs| as real * hi
  {
    if xs != [] {
      var n := |xs| - 1;
      assert forall i :: 0 <= i < n ==> xs[..n][i] == xs[i];
      SumBounds(xs[..n], lo, hi);
      var m := n as real;
      assert |xs[..n]| as real == m && |xs| as real == m + 1.0;
      assert m * lo <= Sum(xs[..n]) <= m * hi;
      assert lo <= xs[n] <= hi;
      assert Sum(xs) == Sum(xs[..n]) + xs[n];
      assert (m + 1.0) * lo == m * lo + lo && (m + 1.0) * hi == m * hi + hi;
    }
  }

  /** A mean of values within bounds stays within the bounds. */
  lemma MeanBounds(xs: seq<real>, lo: real, hi: real)
    requires |xs| > 0
    requires forall i :: 0 <= i < |xs| ==> lo <= xs[i] <= hi
    ensures lo <= Mean(xs) <= hi
  {
    SumBounds(xs, lo, hi);
    var n := |xs| as real;
    DivisionBounds(Sum(xs), n, lo, hi);
  }

  lemma DivisionBounds(a: real, n: real, lo: real, hi: real)
    requires n > 0.0 && n * lo <= a <= n * hi
    ensures lo <= a / n <= hi
  {
    assert a / n - lo == (a - n * lo) / n;
    assert hi - a / n == (n * hi - a) / n;
  }

  function Min(xs: seq<real>): (m: real)
    requires |xs| > 0
    ensures m in xs && forall i :: 0 <= i < |xs| ==> m <= xs[i]
  {
    if |xs| == 1 then xs[0]
    else
      var rest := Min(xs[1..]);
      assert forall i :: 1 <= i < |xs| ==> xs[i] == xs[1..][i - 1];
      if xs[0] <= rest then xs[0] else rest
  }

  function Max(xs: seq<real>): (m: real)
    requires |xs| > 0
    ensures m in xs && forall i :: 0 <= i < |xs| ==> xs[i] <= m
  {
    if |xs| == 1 then xs[0]
    else
      var rest := Max(xs[1..]);
      assert forall i :: 1 <= i < |xs| ==> xs[i] == xs[1..][i - 1];
      if xs[0] >= rest then xs[0] else rest
  }

  /** The average F1 lies between the smallest and the largest class F1. */
  lemma F1BetweenMinAndMax(lines: seq<string>)
    requires RowScores(lines) != []
    ensures Min(RowScores(lines)) <= Mean(RowScores(lines)) <= Max(RowScores(lines))
  {
    var xs := RowScores(lines);
    MeanBounds(xs, Min(xs), Max(xs));
  }

  /** Class F1 values in [0, 1] give an average F1 in [0, 1]; with no rows it is 0. */
  lemma F1InUnitInterval(lines: seq<string>)
    requires forall i :: 0 <= i < |RowScores(lines)| ==> 0.0 <= RowScores(lines)[i] <= 1.0
    ensures 0.0 <= Mean(RowScores(lines)) <= 1.0
  {
    if RowScores(lines) != [] {
      MeanBounds(RowScores(lines), 0.0, 1.0);
    }
  }

  /** `accuracy .` matches the pattern, but its capture `.` is no number:
      the line makes the scan raise `ValueError`. */
  lemma UnparsableCaptureExample()
    ensures AccuracyOf("accuracy .") == Unparsable
  {
    var s := "accuracy .";
    ExampleIsStripped();
    ExampleCapturesPoint();
    assert StartsWith(s, AccuracyKey);
    ParseFloatRejectsExamples();
  }

  lemma ExampleIsStripped()
    ensures Strip("accuracy .") == "accuracy ."
  {
    var s := "accuracy .";
    assert LeadingSpaces(s) == 0;
    assert TrailingSpaces(s) == 0;
    assert s[0..] == s;
  }

  lemma ExampleCapturesPoint()
    ensures SearchAccuracy("accuracy .") == Some(".")
  {
    var s := "accuracy .";
    assert |AccuracyKey| == 8 && s[0..8] == AccuracyKey;
    assert s[9..10] == ".";
    assert s[8..] == " ." && LeadingSpaces(" .") == 1 by { assert " ."[1..] == "."; }
    assert s[9..] == "." && DigitDotRun(".") == 1 by { assert "."[1..] == ""; }
    assert MatchAt(s, 0) == Some(".");
    assert FirstMatch(s, 0) == 0;
  }

  /** A well-formed accuracy line yields its value. */
  lemma AccuracyReadExample()
    ensures AccuracyOf("accuracy 0.85") == Reading(0.85)
  {
    var s := "accuracy 0.85";
    AccuracyLineIsStripped();
    AccuracyLineCapturesValue();
    assert StartsWith(s, AccuracyKey);
    ParseFloatAcceptsExamples();
  }

  lemma AccuracyLineIsStripped()
    ensures Strip("accuracy 0.85") == "accuracy 0.85"
  {
    var s := "accuracy 0.85";
    assert LeadingSpaces(s) == 0;
    assert TrailingSpaces(s) == 0;
    assert s[0..] == s;
  }

  lemma AccuracyLineCapturesValue()
    ensures SearchAccuracy("accuracy 0.85") == Some("0.85")
  {
    var s := "accuracy 0.85";
    assert |AccuracyKey| == 8 && s[0..8] == AccuracyKey;
    assert s[9..13] == "0.85";
    assert s[8..] == " 0.85" && LeadingSpaces(" 0.85") == 1 by {
      assert " 0.85"[1..] == "0.85";
    }
    assert s[9..] == "0.85" && DigitDotRun("0.85") == 4 by {
      assert "0.85"[1..] == ".85" && ".85"[1..] == "85" && "85"[1..] == "5" && "5"[1..] == "";
    }
    assert MatchAt(s, 0) == Some("0.85");
    assert FirstMatch(s, 0) == 0;
  }

  /** A class row contributes its fourth column. */
  lemma RowF1Example()
    ensures RowF1("1 0 0 .5") == Some(0.5)
  {
    var s := "1 0 0 .5";
    RowIsStripped();
    assert !StartsWith(s, AccuracyKey) && IsDigit(s[0]);
    RowTokens();
    ParseFloatAcceptsExamples();
  }

  lemma RowIsStripped()
    ensures Strip("1 0 0 .5") == "1 0 0 .5"
  {
    var s := "1 0 0 .5";
    assert LeadingSpaces(s) == 0;
    assert TrailingSpaces(s) == 0;
    assert s[0..] == s;
  }

  lemma RowTokens()
    ensures SplitWhitespace("1 0 0 .5") == ["1", "0", "0", ".5"]
  {
    var tokens := ["1", "0", "0", ".5"];
    assert tokens[1..] == ["0", "0", ".5"] && tokens[1..][1..] == ["0", ".5"] && tokens[1..][1..][1..] == [".5"];
    assert JoinSpaced(tokens) == "1 0 0 .5";
    forall t | t in tokens ensures |t| > 0 && NoSpace(t) {
    }
    SplitWhitespaceOfJoinSpaced(tokens);
  }
}
