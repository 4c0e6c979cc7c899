/** The administrator screen of ornek1/UserDashboard.js: its reference-range
    evaluator, the "View Analyses" table, the chronological edit modal, the
    guide editor and the check made before a test is saved. */
module UserDashboard {
  import opened Common

  // ---------------------------------------------------------------------
  // The evaluator

  /** `(r.ageMin ?? 0) <= age && age <= (r.ageMax ?? Infinity)`: a missing
      lower bound is 0, a missing upper bound is unbounded, both inclusive. */
  predicate InBracket(r: Range, age: real)
  {
    OrZero(r.ageMin) <= age && (r.ageMax.None? || age <= r.ageMax.value)
  }

  ghost predicate FirstInBracket(ranges: seq<Range>, age: real, k: int)
  {
    0 <= k < |ranges| && InBracket(ranges[k], age)
    && forall j | 0 <= j < k :: !InBracket(ranges[j], age)
  }

  /** `guide.ranges.find(r => InBracket(r, age))`. */
  function RangeFor(g: Guide, age: real): (r: Option<Range>)
    ensures r.None? <==> forall k | 0 <= k < |g.ranges| :: !InBracket(g.ranges[k], age)
    ensures r.Some? ==> r.value in g.ranges && InBracket(r.value, age)
    ensures forall k | FirstInBracket(g.ranges, age, k) :: r == Some(g.ranges[k])
  {
    Find(g.ranges, (rg: Range) => InBracket(rg, age))
  }

  /** `getRangeForAge`: only the first guide whose `testType` is exactly the
      requested one is searched, and the first of its ranges containing the
      age is returned. */
  function GetRangeForAge(guides: seq<Guide>, testType: string, ageInMonths: real): (r: Option<Range>)
    ensures (forall i | 0 <= i < |guides| :: guides[i].testType != testType) ==> r.None?
    ensures r.Some? ==> InBracket(r.value, ageInMonths)
    ensures forall i | FirstOfType(guides, testType, i) ::
              && (r.Some? ==> r.value in guides[i].ranges)
              && (r.None? <==> forall k | 0 <= k < |guides[i].ranges| :: !InBracket(guides[i].ranges[k], ageInMonths))
              && (forall k | FirstInBracket(guides[i].ranges, ageInMonths, k) :: r == Some(guides[i].ranges[k]))
  {
    match FirstGuideOfType(guides, testType)
    case None => None
    case Some(guide) => RangeFor(guide, ageInMonths)
  }

  /** `compareValueWithRange`: low below an existing `min`, otherwise high
      above an existing `max`, otherwise normal; both bounds inclusive. */
  function CompareValueWithRange(value: real, range: Range): (v: Verdict)
    ensures v == Low <==> range.min.Some? && value < range.min.value
    ensures v == High <==> !(range.min.Some? && value < range.min.value) && range.max.Some? && value > range.max.value
    ensures v == Normal <==> (range.min.None? || range.min.value <= value) && (range.max.None? || value <= range.max.value)
  {
    if range.min.Some? && value < range.min.value then Low
    else if range.max.Some? && value > range.max.value then High
    else Normal
  }

  /** `evaluateTestResult`: N/A in grey when no range applies, otherwise the
      verdict's arrow and colour. */
  function EvaluateTestResult(guides: seq<Guide>, testType: string, ageInMonths: real, testValue: real): (m: Mark)
    ensures var range := GetRangeForAge(guides, testType, ageInMonths);
      && (m == NoRangeMark <==> range.None?)
      && (m == LowMark <==> range.Some? && CompareValueWithRange(testValue, range.value) == Low)
      && (m == HighMark <==> range.Some? && CompareValueWithRange(testValue, range.value) == High)
      && (m == NormalMark <==> range.Some? && CompareValueWithRange(testValue, range.value) == Normal)
  {
    match GetRangeForAge(guides, testType, ageInMonths)
    case None => NoRangeMark
    case Some(range) => MarkOf(CompareValueWithRange(testValue, range))
  }

  /** A guide with brackets 0-12 and 13-36 months. */
  function TwoBrackets(): (g: Guide)
    ensures g.testType == "IgA" && |g.ranges| == 2
  {
    Guide("IgA", [Range("0-12m", Some(0.0), Some(12.0), Some(10.0), Some(50.0)),
                  Range("13-36m", Some(13.0), Some(36.0), Some(20.0), Some(80.0))])
  }

  /** A 24-month-old gets the second bracket, so 15 is low against its
      minimum of 20. */
  lemma SecondBracketExample()
    ensures GetRangeForAge([TwoBrackets()], "IgA", 24.0) == Some(TwoBrackets().ranges[1])
    ensures EvaluateTestResult([TwoBrackets()], "IgA", 24.0, 15.0) == LowMark
  {
    var g := TwoBrackets();
    assert FirstOfType([g], "IgA", 0);
    assert FirstInBracket(g.ranges, 24.0, 1);
  }

  /** At 100 months no bracket applies and the mark is N/A. */
  lemma NoBracketExample()
    ensures GetRangeForAge([TwoBrackets()], "IgA", 100.0) == None
    ensures EvaluateTestResult([TwoBrackets()], "IgA", 100.0, 15.0) == NoRangeMark
  {
    var g := TwoBrackets();
    assert FirstOfType([g], "IgA", 0);
    assert !InBracket(g.ranges[0], 100.0) && !InBracket(g.ranges[1], 100.0);
  }

  // ---------------------------------------------------------------------
  // "View Analyses": every guide of a test type is searched, in order

  /** One row of the analyses table. */
  datatype AnalysisRow = AnalysisRow(testType: string, value: real, referenceRange: RefText, mark: Mark)

  /** The first covering range of the first guide in `relevant` that has one
      (the `for (const guide of relevantGuides)` loop and its `break`). */
  function RangeInGuides(relevant: seq<Guide>, age: real): (r: Option<Range>)
    ensures r.Some? ==> InBracket(r.value, age)
  {
    if |relevant| == 0 then None
    else if RangeFor(relevant[0], age).Some? then RangeFor(relevant[0], age)
    else RangeInGuides(relevant[1..], age)
  }

  /** No range is found exactly when no guide covers the age. */
  lemma {:induction false} RangeInGuidesNone(relevant: seq<Guide>, age: real)
    ensures RangeInGuides(relevant, age).None? <==> forall i | 0 <= i < |relevant| :: RangeFor(relevant[i], age).None?
  {
    if |relevant| > 0 && RangeFor(relevant[0], age).None? {
      var rest := relevant[1..];
      RangeInGuidesNone(rest, age);
      assert forall i | 1 <= i < |relevant| :: relevant[i] == rest[i - 1];
    }
  }

  /** The range found is that of the first guide that covers the age. */
  lemma {:induction false} RangeInGuidesFirst(relevant: seq<Guide>, age: real, i: nat)
    requires i < |relevant| && RangeFor(relevant[i], age).Some?
    requires forall j | 0 <= j < i :: RangeFor(relevant[j], age).None?
    ensures RangeInGuides(relevant, age) == RangeFor(relevant[i], age)
  {
    if i > 0 {
      var rest := relevant[1..];
      assert RangeFor(relevant[0], age).None?;
      assert RangeInGuides(relevant, age) == RangeInGuides(rest, age);
      assert rest[i - 1] == relevant[i];
      assert forall j | 0 <= j < i - 1 :: rest[j] == relevant[j + 1];
      RangeInGuidesFirst(rest, age, i - 1);
    }
  }

  /** `min !== null && max !== null ? `${min} - ${max}` : 'N/A'`. */
  function ReferenceText(range: Range): (t: RefText)
    ensures t.Shown? <==> range.min.Some? && range.max.Some?
    ensures t.Shown? ==> t.min == range.min && t.max == range.max
  {
    if range.min.Some? && range.max.Some? then Shown(range.min, range.max) else NotAvailable
  }

  /** The row one (observation, test type) pair contributes, if any. */
  function AnalysisRowFor(guides: seq<Guide>, age: real, testType: string, value: Option<real>): (row: Option<AnalysisRow>)
    ensures row.None? <==> value.None? || forall i | 0 <= i < |guides| :: guides[i].testType != testType
    ensures row.Some? ==> row.value.testType == testType && row.value.value == value.value
    ensures row.Some? ==>
      (row.value.mark == NoRangeMark <==> RangeInGuides(GuidesOfType(guides, testType), age).None?)
    ensures row.Some? && row.value.mark == NoRangeMark ==> row.value.referenceRange == NotAvailable
    ensures row.Some? && RangeInGuides(GuidesOfType(guides, testType), age).Some? ==>
      var range := RangeInGuides(GuidesOfType(guides, testType), age).value;
      row.value.mark == MarkOf(CompareValueWithRange(value.value, range))
      && row.value.referenceRange == ReferenceText(range)
  {
    if value.None? then None
    else
      var relevant := GuidesOfType(guides, testType);
      if |relevant| == 0 then
        assert forall i | 0 <= i < |guides| :: guides[i].testType != testType;
        None
      else
        assert relevant[0] in guides;
        match RangeInGuides(relevant, age)
        case Some(range) =>
          Some(AnalysisRow(testType, value.value, ReferenceText(range), MarkOf(CompareValueWithRange(value.value, range))))
        case None =>
          Some(AnalysisRow(testType, value.value, NotAvailable, NoRangeMark))
  }

  function OptionToSeq<T>(o: Option<T>): seq<T>
  {
    if o.Some? then [o.value] else []
  }

  /** The rows of one observation, in the order of `kinds`. */
  function TestRows(guides: seq<Guide>, age: real, test: TestRecord, kinds: seq<string>): seq<AnalysisRow>
  {
    ConcatMap(kinds, (kind: string) => OptionToSeq(AnalysisRowFor(guides, age, kind, ValueOf(test, kind))))
  }

  /** The whole table: observations in list order, each in `TestTypes` order. */
  function Analyses(guides: seq<Guide>, age: real, tests: seq<TestRecord>): seq<AnalysisRow>
  {
    ConcatMap(tests, (test: TestRecord) => TestRows(guides, age, test, TestTypes))
  }

  /** Rows follow the order of the observations. */
  lemma {:induction false} AnalysesAppend(guides: seq<Guide>, age: real, a: seq<TestRecord>, b: seq<TestRecord>)
    ensures Analyses(guides, age, a + b) == Analyses(guides, age, a) + Analyses(guides, age, b)
  {
    ConcatMapAppend(a, b, (test: TestRecord) => TestRows(guides, age, test, TestTypes));
  }

  /** Within one observation, rows follow the order of the test types. */
  lemma {:induction false} TestRowsAppend(guides: seq<Guide>, age: real, test: TestRecord, a: seq<string>, b: seq<string>)
    ensures TestRows(guides, age, test, a + b) == TestRows(guides, age, test, a) + TestRows(guides, age, test, b)
  {
    ConcatMapAppend(a, b, (kind: string) => OptionToSeq(AnalysisRowFor(guides, age, kind, ValueOf(test, kind))));
  }

  /** A single observation yields exactly the rows of its pairs. */
  lemma {:induction false} AnalysesOfOne(guides: seq<Guide>, age: real, test: TestRecord)
    ensures Analyses(guides, age, [test]) == TestRows(guides, age, test, TestTypes)
  {
    var f := (t: TestRecord) => TestRows(guides, age, t, TestTypes);
    ConcatMapStep([test], f, 0);
    assert [test][..1] == [test] && [test][..0] == [];
    assert ConcatMap([test], f) == ConcatMap([], f) + f(test);
  }

  lemma {:induction false} AnalysesStep(guides: seq<Guide>, age: real, tests: seq<TestRecord>, t: nat)
    requires t < |tests|
    ensures Analyses(guides, age, tests[..t + 1]) == Analyses(guides, age, tests[..t]) + TestRows(guides, age, tests[t], TestTypes)
  {
    ConcatMapStep(tests, (test: TestRecord) => TestRows(guides, age, test, TestTypes), t);
  }

  lemma {:induction false} TestRowsStep(guides: seq<Guide>, age: real, test: TestRecord, kinds: seq<string>, k: nat)
    requires k < |kinds|
    ensures TestRows(guides, age, test, kinds[..k + 1])
         == TestRows(guides, age, test, kinds[..k]) + OptionToSeq(AnalysisRowFor(guides, age, kinds[k], ValueOf(test, kinds[k])))
  {
    ConcatMapStep(kinds, (kind: string) => OptionToSeq(AnalysisRowFor(guides, age, kind, ValueOf(test, kind))), k);
  }

  /** The row of a pair whose `j`-th same-type guide is the first to cover
      the age. */
  lemma FoundRow(guides: seq<Guide>, age: real, testType: string, value: real, j: nat)
    requires var relevant := GuidesOfType(guides, testType);
      && j < |relevant| && RangeFor(relevant[j], age).Some?
      && forall i | 0 <= i < j :: RangeFor(relevant[i], age).None?
    ensures var range := RangeFor(GuidesOfType(guides, testType)[j], age).value;
      AnalysisRowFor(guides, age, testType, Some(value))
        == Some(AnalysisRow(testType, value, ReferenceText(range), MarkOf(CompareValueWithRange(value, range))))
  {
    var relevant := GuidesOfType(guides, testType);
    RangeInGuidesFirst(relevant, age, j);
    assert relevant[0] in guides;
  }

  /** The row of a pair none of whose same-type guides covers the age. */
  lemma NotFoundRow(guides: seq<Guide>, age: real, testType: string, value: real)
    requires var relevant := GuidesOfType(guides, testType);
      && |relevant| > 0
      && forall i | 0 <= i < |relevant| :: RangeFor(relevant[i], age).None?
    ensures AnalysisRowFor(guides, age, testType, Some(value)) == Some(AnalysisRow(testType, value, NotAvailable, NoRangeMark))
  {
    var relevant := GuidesOfType(guides, testType);
    RangeInGuidesNone(relevant, age);
    assert relevant[0] in guides;
  }

  /** The row pushed for the covering range found: the arrow and colour of
      `min`/`max` (a value on a bound is normal) and `min - max` when both
      bounds are set. */
  method RowForRange(testType: string, testValue: real, range: Range) returns (row: AnalysisRow)
    ensures row == AnalysisRow(testType, testValue, ReferenceText(range), MarkOf(CompareValueWithRange(testValue, range)))
  {
    var min, max := range.min, range.max;
    var status, color := "N/A", "grey";
    if min.Some? && testValue < min.value {
      status, color := "↓", "red";
    } else if max.Some? && testValue > max.value {
      status, color := "↑", "orange";
    } else {
      status, color := "↔", "green";
    }
    var reference := if min.Some? && max.Some? then Shown(min, max) else NotAvailable;
    row := AnalysisRow(testType, testValue, reference, Mark(status, color));
  }

  /** The body of the inner `testTypes.forEach` callback: skip a null value
      or a type without guides, otherwise search the same-type guides in
      order, stop (`break`) at the first covering range and push its row, or
      push an N/A row when none covers the age. */
  method PushRowForPair(results: seq<AnalysisRow>, guides: seq<Guide>, userAge: real, testType: string, testValue: Option<real>)
    returns (pushed: seq<AnalysisRow>)
    ensures pushed == results + OptionToSeq(AnalysisRowFor(guides, userAge, testType, testValue))
  {
    pushed := results;
    if testValue.None? {
      return;
    }
    var relevantGuides := GuidesOfType(guides, testType);
    if |relevantGuides| == 0 {
      assert AnalysisRowFor(guides, userAge, testType, testValue).None?;
      return;
    }
    var found := false;
    var j := 0;
    while j < |relevantGuides|
      invariant 0 <= j <= |relevantGuides|
      invariant !found && pushed == results
      invariant forall i | 0 <= i < j :: RangeFor(relevantGuides[i], userAge).None?
    {
      var range := RangeFor(relevantGuides[j], userAge);
      if range.Some? {
        var row := RowForRange(testType, testValue.value, range.value);
        FoundRow(guides, userAge, testType, testValue.value, j);
        pushed := pushed + [row];
        found := true;
        break;
      }
      assert forall i | 0 <= i < j + 1 :: RangeFor(relevantGuides[i], userAge).None? by {
        assert RangeFor(relevantGuides[j], userAge).None?;
      }
      j := j + 1;
    }
    if !found {
      NotFoundRow(guides, userAge, testType, testValue.value);
      pushed := pushed + [AnalysisRow(testType, testValue.value, NotAvailable, Mark("N/A", "grey"))];
    }
  }

  /** The outer `forEach` callback for one test: the seven types in order. */
  method PushRowsForTest(results: seq<AnalysisRow>, guides: seq<Guide>, userAge: real, test: TestRecord)
    returns (pushed: seq<AnalysisRow>)
    ensures pushed == results + TestRows(guides, userAge, test, TestTypes)
  {
    var testTypes := TestTypes;
    pushed := results;
    var k := 0;
    while k < |testTypes|
      invariant 0 <= k <= |testTypes|
      invariant pushed == results + TestRows(guides, userAge, test, testTypes[..k])
    {
      TestRowsStep(guides, userAge, test, testTypes, k);
      var before := pushed;
      pushed := PushRowForPair(pushed, guides, userAge, testTypes[k], ValueOf(test, testTypes[k]));
      assert pushed == results + TestRows(guides, userAge, test, testTypes[..k + 1]) by {
        var row := OptionToSeq(AnalysisRowFor(guides, userAge, testTypes[k], ValueOf(test, testTypes[k])));
        assert pushed == before + row;
        assert before + row == results + (TestRows(guides, userAge, test, testTypes[..k]) + row);
      }
      k := k + 1;
    }
    assert testTypes[..k] == testTypes;
  }

  /** `viewAnalyses(user)`: the nested `forEach` loops over the user's tests
      and the seven test types. A missing age counts as 0 and a user without
      loaded tests has none. */
  method ViewAnalyses(guides: seq<Guide>, userTests: map<string, seq<TestRecord>>, user: User)
    returns (results: seq<AnalysisRow>)
    ensures results == Analyses(guides, OrZero(user.ageInMonths),
                                if user.id in userTests then userTests[user.id] else [])
  {
    var userAge := OrZero(user.ageInMonths);
    var userTestsList := if user.id in userTests then userTests[user.id] else [];
    results := [];
    var t := 0;
    while t < |userTestsList|
      invariant 0 <= t <= |userTestsList|
      invariant results == Analyses(guides, userAge, userTestsList[..t])
    {
      AnalysesStep(guides, userAge, userTestsList, t);
      results := PushRowsForTest(results, guides, userAge, userTestsList[t]);
      t := t + 1;
    }
    assert userTestsList[..t] == userTestsList;
  }

  // ---------------------------------------------------------------------
  // The edit modal: observations oldest first, each compared with the one
  // before it

  /** One row of the edit modal; a null value is evaluated as 0. */
  function EditRowFor(guides: seq<Guide>, age: real, current: TestRecord, previous: Option<TestRecord>, testType: string): (row: EditRow)
    ensures row.testType == testType && row.shown == ValueOf(current, testType)
    ensures row.mark == EvaluateTestResult(guides, testType, age, OrZero(row.shown))
    ensures row.change == TrendSymbol(row.shown, if previous.Some? then ValueOf(previous.value, testType) else None)
    ensures var range := GetRangeForAge(guides, testType, age);
      row.reference == if range.Some? then Shown(range.value.min, range.value.max) else NotAvailable
  {
    var range := GetRangeForAge(guides, testType, age);
    var testValue := ValueOf(current, testType);
    var safeTestValue := OrZero(testValue);
    EditRow(
      testType,
      testValue,
      if range.Some? then Shown(range.value.min, range.value.max) else NotAvailable,
      EvaluateTestResult(guides, testType, age, safeTestValue),
      TrendSymbol(testValue, if previous.Some? then ValueOf(previous.value, testType) else None))
  }

  function EditRows(guides: seq<Guide>, age: real, current: TestRecord, previous: Option<TestRecord>): (rows: seq<EditRow>)
    ensures |rows| == |TestTypes|
    ensures forall k | 0 <= k < |TestTypes| :: rows[k] == EditRowFor(guides, age, current, previous, TestTypes[k])
  {
    seq(|TestTypes|, k requires 0 <= k < |TestTypes| => EditRowFor(guides, age, current, previous, TestTypes[k]))
  }

  /** `.map((currentTest, index, testsArray) => ...)` over the sorted list:
      each observation with the one preceding it. */
  function EditBlocks(guides: seq<Guide>, age: real, sorted: seq<TestRecord>): (blocks: seq<EditBlock>)
    ensures |blocks| == |sorted|
    ensures forall i | 0 <= i < |sorted| :: blocks[i].test == sorted[i]
    ensures forall i | 0 <= i < |sorted| :: blocks[i].rows == EditRows(guides, age, sorted[i], Previous(sorted, i))
  {
    seq(|sorted|, i requires 0 <= i < |sorted| => EditBlock(sorted[i], EditRows(guides, age, sorted[i], Previous(sorted, i))))
  }

  /** The edit modal for `editingUser`: its loaded tests sorted ascending by
      `timestamp.seconds` (non-Timestamps as 0), each evaluated with the
      user's age (missing as 0) against the observation before it. */
  function EditModal(guides: seq<Guide>, editingUser: User, userTests: map<string, seq<TestRecord>>): (blocks: seq<EditBlock>)
    ensures editingUser.id == "" || editingUser.id !in userTests ==> blocks == []
    ensures editingUser.id != "" && editingUser.id in userTests ==>
      var sorted := SortBy(userTests[editingUser.id], Seconds);
      && |blocks| == |userTests[editingUser.id]|
      && (forall i | 0 <= i < |blocks| :: blocks[i].test == sorted[i])
      && (forall i | 0 <= i < |blocks| ::
            blocks[i].rows == EditRows(guides, OrZero(editingUser.ageInMonths), sorted[i], Previous(sorted, i)))
    ensures forall i, j | 0 <= i < j < |blocks| :: Seconds(blocks[i].test) <= Seconds(blocks[j].test)
  {
    if editingUser.id == "" || editingUser.id !in userTests then []
    else EditBlocks(guides, OrZero(editingUser.ageInMonths), SortBy(userTests[editingUser.id], Seconds))
  }

  /** Every row of the edit modal shows the test type in `TestTypes` order,
      the observation's own value, the mark of that value (null as 0) and,
      from the second observation on, the change against the same type's
      value in the observation just before it; the first has no trend. */
  lemma {:induction false} EditModalRows(guides: seq<Guide>, editingUser: User, userTests: map<string, seq<TestRecord>>, i: nat, k: nat)
    requires i < |EditModal(guides, editingUser, userTests)| && k < |TestTypes|
    ensures var blocks := EditModal(guides, editingUser, userTests);
      var row := blocks[i].rows[k];
      && |blocks[i].rows| == |TestTypes|
      && row.testType == TestTypes[k]
      && row.shown == ValueOf(blocks[i].test, TestTypes[k])
      && row.mark == EvaluateTestResult(guides, TestTypes[k], OrZero(editingUser.ageInMonths), OrZero(row.shown))
      && (var range := GetRangeForAge(guides, TestTypes[k], OrZero(editingUser.ageInMonths));
          row.reference == if range.Some? then Shown(range.value.min, range.value.max) else NotAvailable)
      && (i == 0 ==> row.change == NoTrendSymbol)
      && (i > 0 ==> |blocks[i - 1].rows| == |TestTypes|
                    && row.change == TrendSymbol(row.shown, blocks[i - 1].rows[k].shown))
  {
    var blocks := EditModal(guides, editingUser, userTests);
    assert editingUser.id != "" && editingUser.id in userTests;
    var sorted := SortBy(userTests[editingUser.id], Seconds);
    var age := OrZero(editingUser.ageInMonths);
    assert blocks[i].rows[k] == EditRowFor(guides, age, sorted[i], Previous(sorted, i), TestTypes[k]);
    if i > 0 {
      assert blocks[i - 1].rows[k] == EditRowFor(guides, age, sorted[i - 1], Previous(sorted, i - 1), TestTypes[k]);
    }
  }

  // ---------------------------------------------------------------------
  // Saving a guide

  datatype SaveOutcome = NotSaved | Rejected(message: string) | Submitted(guide: Guide)

  const NoRangesMessage: string := "Please add at least one age range."
  const MissingFieldMessage: string := "All range fields must be filled."

  predicate Complete(r: Range)
  {
    r.ageMin.Some? && r.ageMax.Some? && r.min.Some? && r.max.Some?
  }

  /** The checks of `saveGuideToDatabase`: nothing happens without a guide or
      a selected test, a guide without ranges or with any range missing one of
      its four numbers is rejected, and only a complete guide is written. */
  method ValidateGuide(guideData: Option<Guide>, selectedTest: Option<string>) returns (outcome: SaveOutcome)
    ensures outcome == NotSaved <==> guideData.None? || selectedTest.None? || selectedTest.value == ""
    ensures outcome == Rejected(NoRangesMessage) <==>
      guideData.Some? && selectedTest.Some? && selectedTest.value != "" && |guideData.value.ranges| == 0
    ensures outcome == Rejected(MissingFieldMessage) <==>
      guideData.Some? && selectedTest.Some? && selectedTest.value != "" && |guideData.value.ranges| != 0
      && exists i | 0 <= i < |guideData.value.ranges| :: !Complete(guideData.value.ranges[i])
    ensures outcome.Submitted? <==>
      guideData.Some? && selectedTest.Some? && selectedTest.value != "" && |guideData.value.ranges| != 0
      && forall i | 0 <= i < |guideData.value.ranges| :: Complete(guideData.value.ranges[i])
    ensures outcome.Submitted? ==> outcome.guide == guideData.value
  {
    if guideData.None? || selectedTest.None? || selectedTest.value == "" {
      return NotSaved;
    }
    var ranges := guideData.value.ranges;
    if |ranges| == 0 {
      return Rejected(NoRangesMessage);
    }
    var i := 0;
    while i < |ranges|
      invariant 0 <= i <= |ranges|
      invariant forall j | 0 <= j < i :: Complete(ranges[j])
    {
      var range := ranges[i];
      if range.ageMin.None? || range.ageMax.None? || range.min.None? || range.max.None? {
        return Rejected(MissingFieldMessage);
      }
      i := i + 1;
    }
    return Submitted(guideData.value);
  }

  /** The guide-editing state of the screen and its updaters. */
  class GuideEditor {
    var selectedTest: Option<string>
    var guideData: Option<Guide>
    var guideModalVisible: bool

    constructor ()
      ensures selectedTest == None && guideData == None && !guideModalVisible
    {
      selectedTest, guideData, guideModalVisible := None, None, false;
    }

    /** `handleSelectTest(test)`: starts an empty guide for `test`. */
    method HandleSelectTest(test: string)
      modifies this
      ensures selectedTest == Some(test) && guideData == Some(Guide(test, []))
      ensures guideModalVisible == old(guideModalVisible)
    {
      selectedTest := Some(test);
      guideData := Some(Guide(test, []));
    }

    /** `handleGuideChange(index, field, value)`; a no-op without a guide. */
    method HandleGuideChange(index: nat, field: Field, value: FieldInput)
      requires guideData.Some? ==> index < |guideData.value.ranges|
      modifies this
      ensures old(guideData).None? ==> guideData == None
      ensures old(guideData).Some? ==> guideData == Some(ChangeRangeField(old(guideData).value, index, field, value))
      ensures selectedTest == old(selectedTest) && guideModalVisible == old(guideModalVisible)
    {
      if guideData.Some? {
        guideData := Some(ChangeRangeField(guideData.value, index, field, value));
      }
    }

    /** `handleAgeGroupChange(index, value)`; a no-op without a guide. */
    method HandleAgeGroupChange(index: nat, value: string)
      requires guideData.Some? ==> index < |guideData.value.ranges|
      modifies this
      ensures old(guideData).None? ==> guideData == None
      ensures old(guideData).Some? ==> guideData == Some(RenameAgeGroup(old(guideData).value, index, value))
      ensures selectedTest == old(selectedTest) && guideModalVisible == old(guideModalVisible)
    {
      if guideData.Some? {
        guideData := Some(RenameAgeGroup(guideData.value, index, value));
      }
    }

    /** `addAgeGroup()`: appends one all-zero range; a no-op without a guide. */
    method AddAgeGroup()
      modifies this
      ensures old(guideData).None? ==> guideData == None
      ensures old(guideData).Some? ==> guideData == Some(WithNewAgeGroup(old(guideData).value))
      ensures selectedTest == old(selectedTest) && guideModalVisible == old(guideModalVisible)
    {
      if guideData.Some? {
        guideData := Some(WithNewAgeGroup(guideData.value));
      }
    }

    /** `handleCloseGuideModal()`. */
    method HandleCloseGuideModal()
      modifies this
      ensures selectedTest == None && guideData == None && !guideModalVisible
    {
      selectedTest, guideData, guideModalVisible := None, None, false;
    }

    /** `saveGuideToDatabase()`: validates, then writes the guide; when the
        write succeeds (`writeSucceeds`) the modal closes and the editor is
        cleared, otherwise nothing changes. */
    method SaveGuideToDatabase(writeSucceeds: bool) returns (outcome: SaveOutcome)
      modifies this
      ensures outcome.Submitted? <==>
        old(guideData).Some? && old(selectedTest).Some? && old(selectedTest).value != ""
        && |old(guideData).value.ranges| != 0
        && forall i | 0 <= i < |old(guideData).value.ranges| :: Complete(old(guideData).value.ranges[i])
      ensures outcome.Submitted? ==> outcome.guide == old(guideData).value
      ensures outcome.Submitted? && writeSucceeds ==> selectedTest == None && guideData == None && !guideModalVisible
      ensures !(outcome.Submitted? && writeSucceeds) ==>
        selectedTest == old(selectedTest) && guideData == old(guideData) && guideModalVisible == old(guideModalVisible)
    {
      outcome := ValidateGuide(guideData, selectedTest);
      if outcome.Submitted? && writeSucceeds {
        guideModalVisible, selectedTest, guideData := false, None, None;
      }
    }
  }

  // ---------------------------------------------------------------------
  // The check before a test is saved (`handleTestSave`)

  /** A value of `Object.values(newTest)`. */
  datatype JsValue = JsNull | JsNumber(n: real) | JsDate

  function AsJs(v: Option<real>): JsValue
  {
    if v.Some? then JsNumber(v.value) else JsNull
  }

  /** `Object.values(newTest)`: the seven values and the `timestamp`, which
      the form always holds as a `Date`. */
  function ObjectValues(newTest: TestRecord): seq<JsValue>
  {
    [AsJs(newTest.IgA), AsJs(newTest.IgM), AsJs(newTest.IgG), AsJs(newTest.IgG1),
     AsJs(newTest.IgG2), AsJs(newTest.IgG3), AsJs(newTest.IgG4), JsDate]
  }

  function CountNonNull(vs: seq<JsValue>): (n: nat)
    ensures n <= |vs|
    ensures n == 0 <==> forall i | 0 <= i < |vs| :: vs[i] == JsNull
  {
    if |vs| == 0 then 0 else (if vs[0] != JsNull then 1 else 0) + CountNonNull(vs[1..])
  }

  /** "Please enter at least one test value." is shown when nothing non-null
      is left after the filter. */
  predicate TestSaveRejected(newTest: TestRecord)
  {
    CountNonNull(ObjectValues(newTest)) == 0
  }

  /** The `timestamp` is among the counted values, so the check never
      rejects, not even a test with all seven values null. */
  lemma {:induction false} TestSaveNeverRejects(newTest: TestRecord)
    ensures CountNonNull(ObjectValues(newTest)) >= 1
    ensures !TestSaveRejected(newTest)
  {
    var vs := ObjectValues(newTest);
    CountNonNullDate(vs, 7);
  }

  lemma {:induction false} CountNonNullDate(vs: seq<JsValue>, i: nat)
    requires i < |vs| && vs[i] == JsDate
    ensures CountNonNull(vs) >= 1
  {
    if i > 0 {
      CountNonNullDate(vs[1..], i - 1);
    }
  }
}
