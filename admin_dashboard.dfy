/** The administrator screen of AdminDashboard.tsx: its copy of the
    reference-range evaluator, the `TestItem` component (defined but never
    rendered), the chronological edit modal and the guide editor, which here
    saves a guide without checking it. */
module AdminDashboard {
  import opened Common

  // ---------------------------------------------------------------------
  // The evaluator

  /** `r.ageMax ?? Infinity`: only a missing upper limit is unbounded. */
  function UpperAge(r: Range): (b: AgeBound)
    ensures b.Infinity? <==> r.ageMax.None?
    ensures b.Finite? ==> b.limit == r.ageMax.value
  {
    if r.ageMax.Some? then Finite(r.ageMax.value) else Infinity
  }

  /** `age >= (r.ageMin ?? 0) && age <= (r.ageMax ?? Infinity)`. */
  predicate InBracket(r: Range, age: real)
  {
    age >= OrZero(r.ageMin) && AtMost(age, UpperAge(r))
  }

  ghost predicate FirstInBracket(ranges: seq<Range>, age: real, k: int)
  {
    0 <= k < |ranges| && InBracket(ranges[k], age)
    && forall j | 0 <= j < k :: !InBracket(ranges[j], age)
  }

  /** `guide.ranges.find(r => InBracket(r, age))`. */
  function RangeFor(g: Guide, age: real): (r: Option<Range>)
    ensures r.None? <==> forall k | 0 <= k < |g.ranges| :: !InBracket(g.ranges[k], age)
    ensures r.Some? ==> r.value in g.ranges && InBracket(r.value, age)
    ensures forall k | FirstInBracket(g.ranges, age, k) :: r == Some(g.ranges[k])
  {
    Find(g.ranges, (rg: Range) => InBracket(rg, age))
  }

  /** `getRangeForAge`: the first guide of exactly this type, then the first
      of its ranges containing the age; null otherwise. */
  function GetRangeForAge(guides: seq<Guide>, testType: string, ageInMonths: real): (r: Option<Range>)
    ensures (forall i | 0 <= i < |guides| :: guides[i].testType != testType) ==> r.None?
    ensures r.Some? ==> InBracket(r.value, ageInMonths)
    ensures forall i | FirstOfType(guides, testType, i) ::
              && (r.Some? ==> r.value in guides[i].ranges)
              && (r.None? <==> forall k | 0 <= k < |guides[i].ranges| :: !InBracket(guides[i].ranges[k], ageInMonths))
              && (forall k | FirstInBracket(guides[i].ranges, ageInMonths, k) :: r == Some(guides[i].ranges[k]))
  {
    match FirstGuideOfType(guides, testType)
    case None => None
    case Some(guide) => RangeFor(guide, ageInMonths)
  }

  /** `compareValueWithRange`: low is checked first, then high; a null bound
      is never violated and a value on a bound is normal. */
  function CompareValueWithRange(value: real, range: Range): (v: Verdict)
    ensures v == Low <==> range.min.Some? && value < range.min.value
    ensures v == High <==> !(range.min.Some? && value < range.min.value) && range.max.Some? && value > range.max.value
    ensures v == Normal <==> (range.min.None? || range.min.value <= value) && (range.max.None? || value <= range.max.value)
  {
    if range.min.Some? && value < range.min.value then Low
    else if range.max.Some? && value > range.max.value then High
    else Normal
  }

  /** `evaluateTestResult`: N/A in grey without a range, otherwise the
      verdict's arrow and colour (the `default` branch cannot be reached). */
  function EvaluateTestResult(guides: seq<Guide>, testType: string, ageInMonths: real, testValue: real): (m: Mark)
    ensures var range := GetRangeForAge(guides, testType, ageInMonths);
      && (m == NoRangeMark <==> range.None?)
      && (m == LowMark <==> range.Some? && CompareValueWithRange(testValue, range.value) == Low)
      && (m == HighMark <==> range.Some? && CompareValueWithRange(testValue, range.value) == High)
      && (m == NormalMark <==> range.Some? && CompareValueWithRange(testValue, range.value) == Normal)
  {
    match GetRangeForAge(guides, testType, ageInMonths)
    case None => NoRangeMark
    case Some(range) => MarkOf(CompareValueWithRange(testValue, range))
  }

  // ---------------------------------------------------------------------
  // `TestItem`: the rows it would show under one observation; the file
  // defines the component but never renders it

  /** One row: the type, the raw value (None prints "N/A"), the reference
      cell and the status mark (its symbol is printed twice). */
  datatype ItemRow = ItemRow(testType: string, shown: Option<real>, reference: RefText, mark: Mark)

  /** `editingUser?.ageInMonths || 0`. */
  function EditingAge(editingUser: Option<User>): real
  {
    if editingUser.Some? then OrZero(editingUser.value.ageInMonths) else 0.0
  }

  function TestItemRow(guides: seq<Guide>, age: real, test: TestRecord, testType: string): ItemRow
  {
    var range := GetRangeForAge(guides, testType, age);
    var testValue := ValueOf(test, testType);
    ItemRow(
      testType,
      testValue,
      if range.Some? then Shown(range.value.min, range.value.max) else NotAvailable,
      EvaluateTestResult(guides, testType, age, OrZero(testValue)))
  }

  /** `TestItem({ test })`: one row per type, in `TestTypes` order. */
  function TestItem(guides: seq<Guide>, editingUser: Option<User>, test: TestRecord): (rows: seq<ItemRow>)
    ensures |rows| == |TestTypes|
    ensures forall k | 0 <= k < |TestTypes| ::
      var range := GetRangeForAge(guides, TestTypes[k], EditingAge(editingUser));
      && rows[k].testType == TestTypes[k]
      && rows[k].shown == ValueOf(test, TestTypes[k])
      && (rows[k].reference.Shown? <==> range.Some?)
      && (range.Some? ==> rows[k].reference == Shown(range.value.min, range.value.max))
      && rows[k].mark == EvaluateTestResult(guides, TestTypes[k], EditingAge(editingUser), OrZero(rows[k].shown))
  {
    seq(|TestTypes|, k requires 0 <= k < |TestTypes| =>
      TestItemRow(guides, EditingAge(editingUser), test, TestTypes[k]))
  }

  /** A null value gets the mark a stored 0 would get. */
  lemma TestItemNullAsZero(guides: seq<Guide>, editingUser: Option<User>, test: TestRecord, k: nat)
    requires k < |TestTypes| && ValueOf(test, TestTypes[k]).None?
    ensures TestItem(guides, editingUser, test)[k].mark
         == EvaluateTestResult(guides, TestTypes[k], EditingAge(editingUser), 0.0)
  {
  }

  // ---------------------------------------------------------------------
  // The edit modal: observations oldest first, each compared with the one
  // before it

  function EditRowFor(guides: seq<Guide>, age: real, current: TestRecord, previous: Option<TestRecord>, testType: string): (row: EditRow)
    ensures row.testType == testType && row.shown == ValueOf(current, testType)
    ensures row.mark == EvaluateTestResult(guides, testType, age, OrZero(row.shown))
    ensures row.change == TrendSymbol(row.shown, if previous.Some? then ValueOf(previous.value, testType) else None)
    ensures var range := GetRangeForAge(guides, testType, age);
      row.reference == if range.Some? then Shown(range.value.min, range.value.max) else NotAvailable
  {
    var range := GetRangeForAge(guides, testType, age);
    var testValue := ValueOf(current, testType);
    var safeTestValue := OrZero(testValue);
    EditRow(
      testType,
      testValue,
      if range.Some? then Shown(range.value.min, range.value.max) else NotAvailable,
      EvaluateTestResult(guides, testType, age, safeTestValue),
      TrendSymbol(testValue, if previous.Some? then ValueOf(previous.value, testType) else None))
  }

  function EditRows(guides: seq<Guide>, age: real, current: TestRecord, previous: Option<TestRecord>): (rows: seq<EditRow>)
    ensures |rows| == |TestTypes|
    ensures forall k | 0 <= k < |TestTypes| :: rows[k] == EditRowFor(guides, age, current, previous, TestTypes[k])
  {
    seq(|TestTypes|, k requires 0 <= k < |TestTypes| => EditRowFor(guides, age, current, previous, TestTypes[k]))
  }

  /** The `.map((currentTest, index, testsArray) => ...)` over the sorted list. */
  function EditBlocks(guides: seq<Guide>, age: real, sorted: seq<TestRecord>): (blocks: seq<EditBlock>)
    ensures |blocks| == |sorted|
    ensures forall i | 0 <= i < |sorted| :: blocks[i].test == sorted[i]
    ensures forall i | 0 <= i < |sorted| :: blocks[i].rows == EditRows(guides, age, sorted[i], Previous(sorted, i))
  {
    seq(|sorted|, i requires 0 <= i < |sorted| => EditBlock(sorted[i], EditRows(guides, age, sorted[i], Previous(sorted, i))))
  }

  /** The edit modal: the loaded tests sorted ascending by
      `timestamp.seconds` (non-Timestamps as 0), each evaluated with the age
      (missing as 0) against the observation before it. */
  function EditModal(guides: seq<Guide>, editingUser: User, userTests: map<string, seq<TestRecord>>): (blocks: seq<EditBlock>)
    ensures editingUser.id == "" || editingUser.id !in userTests ==> blocks == []
    ensures editingUser.id != "" && editingUser.id in userTests ==>
      var sorted := SortBy(userTests[editingUser.id], Seconds);
      && |blocks| == |userTests[editingUser.id]|
      && (forall i | 0 <= i < |blocks| :: blocks[i].test == sorted[i])
      && (forall i | 0 <= i < |blocks| ::
            blocks[i].rows == EditRows(guides, OrZero(editingUser.ageInMonths), sorted[i], Previous(sorted, i)))
    ensures forall i, j | 0 <= i < j < |blocks| :: Seconds(blocks[i].test) <= Seconds(blocks[j].test)
  {
    if editingUser.id == "" || editingUser.id !in userTests then []
    else EditBlocks(guides, OrZero(editingUser.ageInMonths), SortBy(userTests[editingUser.id], Seconds))
  }

  /** The modal holds exactly the loaded tests. */
  lemma EditModalChronological(guides: seq<Guide>, editingUser: User, userTests: map<string, seq<TestRecord>>)
    requires editingUser.id != "" && editingUser.id in userTests
    ensures var blocks := EditModal(guides, editingUser, userTests);
      multiset(seq(|blocks|, i requires 0 <= i < |blocks| => blocks[i].test)) == multiset(userTests[editingUser.id])
  {
    var blocks := EditModal(guides, editingUser, userTests);
    var sorted := SortBy(userTests[editingUser.id], Seconds);
    assert seq(|blocks|, i requires 0 <= i < |blocks| => blocks[i].test) == sorted;
  }

  // ---------------------------------------------------------------------
  // The guide editor

  /** The guide-editing state of the screen and its updaters. */
  class GuideEditor {
    var selectedTest: Option<string>
    var guideData: Option<Guide>
    var guideModalVisible: bool

    constructor ()
      ensures selectedTest == None && guideData == None && !guideModalVisible
    {
      selectedTest, guideData, guideModalVisible := None, None, false;
    }

    /** `handleSelectTest(test)`: starts an empty guide for `test`. */
    method HandleSelectTest(test: string)
      modifies this
      ensures selectedTest == Some(test) && guideData == Some(Guide(test, []))
      ensures guideModalVisible == old(guideModalVisible)
    {
      selectedTest := Some(test);
      guideData := Some(Guide(test, []));
    }

    /** `handleGuideChange(index, field, value)`; a no-op without a guide. */
    method HandleGuideChange(index: nat, field: Field, value: FieldInput)
      requires guideData.Some? ==> index < |guideData.value.ranges|
      modifies this
      ensures old(guideData).None? ==> guideData == None
      ensures old(guideData).Some? ==> guideData == Some(ChangeRangeField(old(guideData).value, index, field, value))
      ensures selectedTest == old(selectedTest) && guideModalVisible == old(guideModalVisible)
    {
      if guideData.Some? {
        guideData := Some(ChangeRangeField(guideData.value, index, field, value));
      }
    }

    /** `handleAgeGroupChange(index, value)`; a no-op without a guide. */
    method HandleAgeGroupChange(index: nat, value: string)
      requires guideData.Some? ==> index < |guideData.value.ranges|
      modifies this
      ensures old(guideData).None? ==> guideData == None
      ensures old(guideData).Some? ==> guideData == Some(RenameAgeGroup(old(guideData).value, index, value))
      ensures selectedTest == old(selectedTest) && guideModalVisible == old(guideModalVisible)
    {
      if guideData.Some? {
        guideData := Some(RenameAgeGroup(guideData.value, index, value));
      }
    }

    /** `addAgeGroup()`: appends one all-zero range; a no-op without a guide. */
    method AddAgeGroup()
      modifies this
      ensures old(guideData).None? ==> guideData == None
      ensures old(guideData).Some? ==> guideData == Some(WithNewAgeGroup(old(guideData).value))
      ensures selectedTest == old(selectedTest) && guideModalVisible == old(guideModalVisible)
    {
      if guideData.Some? {
        guideData := Some(WithNewAgeGroup(guideData.value));
      }
    }

    /** `handleCloseGuideModal()`. */
    method HandleCloseGuideModal()
      modifies this
      ensures selectedTest == None && guideData == None && !guideModalVisible
    {
      selectedTest, guideData, guideModalVisible := None, None, false;
    }

    /** `saveGuideToDatabase()`: any guide at all is written, without a
        check (`written` is what is handed to the store). When the write
        succeeds the modal closes and the selected test is cleared, but the
        guide itself stays in the editor. */
    method SaveGuideToDatabase(writeSucceeds: bool) returns (written: Option<Guide>)
      modifies this
      ensures written == old(guideData)
      ensures guideData == old(guideData)
      ensures written.Some? && writeSucceeds ==> selectedTest == None && !guideModalVisible
      ensures !(written.Some? && writeSucceeds) ==>
        selectedTest == old(selectedTest) && guideModalVisible == old(guideModalVisible)
    {
      if guideData.None? {
        return None;
      }
      written := guideData;
      if writeSucceeds {
        guideModalVisible := false;
        selectedTest := None;
      }
    }
  }
}
