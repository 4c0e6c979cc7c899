/** How the three copies of the evaluator relate: the two administrator
    screens agree everywhere, the patient screen differs from them exactly
    on ranges whose upper age limit is 0, and the "View Analyses" table of
    ornek1/UserDashboard.js differs from `getRangeForAge` in which guides it
    searches and in what it does with a missing value. */
module Revisions {
  import opened Common
  import UserDashboard
  import AdminDashboard
  import ViewTests

  // ---------------------------------------------------------------------
  // ornek1/UserDashboard.js and AdminDashboard.tsx

  lemma {:induction false} AdminRangeForAgrees(g: Guide, age: real)
    ensures AdminDashboard.RangeFor(g, age) == UserDashboard.RangeFor(g, age)
  {
    FindAgrees(g.ranges, (rg: Range) => AdminDashboard.InBracket(rg, age), (rg: Range) => UserDashboard.InBracket(rg, age));
  }

  /** The two administrator screens find the same range and give the same
      mark for every guide list, type, age and value. */
  lemma {:induction false} AdminEvaluatorAgrees(guides: seq<Guide>, testType: string, age: real, value: real)
    ensures AdminDashboard.GetRangeForAge(guides, testType, age) == UserDashboard.GetRangeForAge(guides, testType, age)
    ensures AdminDashboard.EvaluateTestResult(guides, testType, age, value)
         == UserDashboard.EvaluateTestResult(guides, testType, age, value)
  {
    var guide := FirstGuideOfType(guides, testType);
    if guide.Some? {
      AdminRangeForAgrees(guide.value, age);
    }
  }

  lemma {:induction false} AdminEditRowAgrees(guides: seq<Guide>, age: real, current: TestRecord, previous: Option<TestRecord>, testType: string)
    ensures AdminDashboard.EditRowFor(guides, age, current, previous, testType)
         == UserDashboard.EditRowFor(guides, age, current, previous, testType)
  {
    AdminEvaluatorAgrees(guides, testType, age, OrZero(ValueOf(current, testType)));
  }

  lemma {:induction false} AdminEditRowsAgree(guides: seq<Guide>, age: real, current: TestRecord, previous: Option<TestRecord>)
    ensures AdminDashboard.EditRows(guides, age, current, previous) == UserDashboard.EditRows(guides, age, current, previous)
  {
    var a := AdminDashboard.EditRows(guides, age, current, previous);
    var u := UserDashboard.EditRows(guides, age, current, previous);
    forall k | 0 <= k < |TestTypes| ensures a[k] == u[k] {
      AdminEditRowAgrees(guides, age, current, previous, TestTypes[k]);
    }
  }

  /** The edit modals of the two administrator screens are the same. */
  lemma {:induction false} AdminEditModalAgrees(guides: seq<Guide>, editingUser: User, userTests: map<string, seq<TestRecord>>)
    ensures AdminDashboard.EditModal(guides, editingUser, userTests) == UserDashboard.EditModal(guides, editingUser, userTests)
  {
    var a := AdminDashboard.EditModal(guides, editingUser, userTests);
    var u := UserDashboard.EditModal(guides, editingUser, userTests);
    if editingUser.id != "" && editingUser.id in userTests {
      var sorted := SortBy(userTests[editingUser.id], Seconds);
      var age := OrZero(editingUser.ageInMonths);
      forall i | 0 <= i < |a| ensures a[i] == u[i] {
        AdminEditRowsAgree(guides, age, sorted[i], Previous(sorted, i));
      }
    }
  }

  /** `TestItem` shows, for every type, what the edit modal shows for the
      same observation apart from the change column. */
  lemma AdminTestItemMatchesEditRows(guides: seq<Guide>, editingUser: User, test: TestRecord, previous: Option<TestRecord>, k: nat)
    requires k < |TestTypes|
    ensures var item := AdminDashboard.TestItem(guides, Some(editingUser), test)[k];
      var row := AdminDashboard.EditRows(guides, OrZero(editingUser.ageInMonths), test, previous)[k];
      item.testType == row.testType && item.shown == row.shown && item.reference == row.reference && item.mark == row.mark
  {
  }

  // ---------------------------------------------------------------------
  // ViewTests.tsx against the administrator screens

  /** The `||` and `??` readings of a range agree unless its upper limit is
      0, where `||` makes the range unbounded above. */
  lemma ViewTestsBracketAgrees(r: Range, age: real)
    requires r.ageMax != Some(0.0)
    ensures ViewTests.InBracket(r, age) == UserDashboard.InBracket(r, age)
  {
  }

  lemma {:induction false} ViewTestsRangeForAgrees(g: Guide, age: real)
    requires forall k | 0 <= k < |g.ranges| :: g.ranges[k].ageMax != Some(0.0)
    ensures ViewTests.RangeFor(g, age) == UserDashboard.RangeFor(g, age)
  {
    FindAgrees(g.ranges, (rg: Range) => ViewTests.InBracket(rg, age), (rg: Range) => UserDashboard.InBracket(rg, age));
  }

  /** Without a 0 upper limit in the guide that is searched, the patient
      screen finds the same range as the administrator screens. */
  lemma {:induction false} ViewTestsLookupAgrees(guides: seq<Guide>, testType: string, age: real)
    requires forall i, k | 0 <= i < |guides| && 0 <= k < |guides[i].ranges| :: guides[i].ranges[k].ageMax != Some(0.0)
    ensures ViewTests.GetGuideForTestAndAge(guides, testType, age) == UserDashboard.GetRangeForAge(guides, testType, age)
  {
    var guide := FirstGuideOfType(guides, testType);
    if guide.Some? {
      var i :| 0 <= i < |guides| && guides[i] == guide.value;
      ViewTestsRangeForAgrees(guide.value, age);
    }
  }

  /** A range for "0-12 months" saved with an upper limit of 0: the patient
      screen applies it to a 24-month-old, the administrator screens do not. */
  lemma ZeroAgeMaxDiverges()
    ensures var r := Range("", Some(0.0), Some(0.0), Some(1.0), Some(2.0));
      ViewTests.InBracket(r, 24.0) && !UserDashboard.InBracket(r, 24.0)
  {
  }

  /** For every range whose upper limit is 0 the two readings disagree on
      some age: one above both the lower limit and 0. */
  lemma ZeroAgeMaxAlwaysDiverges(r: Range)
    requires r.ageMax == Some(0.0)
    ensures exists age :: ViewTests.InBracket(r, age) != UserDashboard.InBracket(r, age)
  {
    var age := (if OrZero(r.ageMin) > 0.0 then OrZero(r.ageMin) else 0.0) + 1.0;
    assert ViewTests.InBracket(r, age) && !UserDashboard.InBracket(r, age);
  }

  /** `getStatus` on a range's bounds is the mark `evaluateTestResult` gives
      for the verdict of `compareValueWithRange`. */
  lemma StatusAgrees(value: real, r: Range)
    ensures ViewTests.GetStatus(value, r.min, r.max) == MarkOf(UserDashboard.CompareValueWithRange(value, r))
  {
  }

  // ---------------------------------------------------------------------
  // "View Analyses" against `getRangeForAge`

  /** Two "IgA" guides: the first only for 0-12 months, the second from 12
      months on. */
  function StagedGuides(): (guides: seq<Guide>)
    ensures |guides| == 2 && guides[0].testType == "IgA" && guides[1].testType == "IgA"
  {
    [Guide("IgA", [Range("0-12", Some(0.0), Some(12.0), Some(1.0), Some(2.0))]),
     Guide("IgA", [Range("12+", Some(12.0), None, Some(3.0), Some(4.0))])]
  }

  /** For a 24-month-old, `getRangeForAge` looks only at the first guide,
      finds nothing there and gives N/A. */
  lemma FirstGuideOnly()
    ensures UserDashboard.GetRangeForAge(StagedGuides(), "IgA", 24.0) == None
    ensures UserDashboard.EvaluateTestResult(StagedGuides(), "IgA", 24.0, 3.5) == NoRangeMark
  {
    var guides := StagedGuides();
    assert UserDashboard.RangeFor(guides[0], 24.0) == None;
    assert FirstOfType(guides, "IgA", 0);
  }

  /** On the same guides `viewAnalyses` goes on to the second guide and
      classifies 3.5 as normal against its bounds. */
  lemma ViewAnalysesSearchesEveryGuide()
    ensures var row := UserDashboard.AnalysisRowFor(StagedGuides(), 24.0, "IgA", Some(3.5));
      row.Some? && row.value.mark == NormalMark && row.value.referenceRange == Shown(Some(3.0), Some(4.0))
  {
    var guides := StagedGuides();
    var older := guides[1];
    assert UserDashboard.RangeFor(guides[0], 24.0) == None;
    assert UserDashboard.RangeFor(older, 24.0) == Some(older.ranges[0]) by {
      assert UserDashboard.FirstInBracket(older.ranges, 24.0, 0);
    }
    assert GuidesOfType(guides, "IgA") == guides by {
      assert guides[1..] == [older];
    }
    assert UserDashboard.RangeInGuides(guides, 24.0) == Some(older.ranges[0]);
  }

  /** A missing value gives no row in "View Analyses" but is classified as 0
      on the patient screen. */
  lemma MissingValueTreatments(guides: seq<Guide>, selectedGuide: string, collections: map<string, seq<Guide>>,
                               age: real, test: TestRecord, testType: string)
    requires ValueOf(test, testType).None?
    requires selectedGuide in collections
    requires ViewTests.GetGuideForTestAndAge(collections[selectedGuide], testType, age).Some?
    ensures UserDashboard.AnalysisRowFor(guides, age, testType, ValueOf(test, testType)).None?
    ensures var cell := ViewTests.CellFor(collections, selectedGuide, age, test, testType);
      cell.Some? && cell.value.Status? && cell.value.value == 0.0
  {
  }

  /** Test types are matched exactly: a guide stored as "IgA" is not found
      for "iga" by any of the three lookups. */
  lemma TestTypeCaseSensitive()
    ensures var guides := [Guide("IgA", [Range("", None, None, None, None)])];
      && UserDashboard.GetRangeForAge(guides, "IgA", 6.0).Some?
      && UserDashboard.GetRangeForAge(guides, "iga", 6.0).None?
      && AdminDashboard.GetRangeForAge(guides, "iga", 6.0).None?
      && ViewTests.GetGuideForTestAndAge(guides, "iga", 6.0).None?
  {
    var guides := [Guide("IgA", [Range("", None, None, None, None)])];
    assert FirstOfType(guides, "IgA", 0);
    assert UserDashboard.FirstInBracket(guides[0].ranges, 6.0, 0);
    assert guides[0].testType != "iga";
  }
}
