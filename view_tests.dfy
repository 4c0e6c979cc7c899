/** The patient's own screen, ViewTests.tsx: its copy of the range lookup,
    which reads the age limits with `||`, the status function, and the
    analyses modal that lists the tests newest first against the guides of
    one selected collection. */
module ViewTests {
  import opened Common

  // ---------------------------------------------------------------------
  // The evaluator

  /** `r.ageMin || 0`: a missing lower limit is 0. */
  function LowerAge(r: Range): (a: real)
    ensures a == OrZero(r.ageMin)
  {
    if r.ageMin.Some? && r.ageMin.value != 0.0 then r.ageMin.value else 0.0
  }

  /** `r.ageMax || Infinity`: a missing upper limit and an upper limit of 0
      are both unbounded. */
  function UpperAge(r: Range): (b: AgeBound)
    ensures b.Infinity? <==> r.ageMax.None? || r.ageMax.value == 0.0
    ensures b.Finite? ==> b.limit == r.ageMax.value && b.limit != 0.0
  {
    if r.ageMax.Some? && r.ageMax.value != 0.0 then Finite(r.ageMax.value) else Infinity
  }

  predicate InBracket(r: Range, age: real)
  {
    LowerAge(r) <= age && AtMost(age, UpperAge(r))
  }

  /** A range whose upper limit is 0 or missing holds every age from its
      lower limit on. */
  lemma ZeroAgeMaxUnbounded(r: Range, age: real)
    requires r.ageMax == None || r.ageMax == Some(0.0)
    ensures InBracket(r, age) <==> OrZero(r.ageMin) <= age
  {
  }

  ghost predicate FirstInBracket(ranges: seq<Range>, age: real, k: int)
  {
    0 <= k < |ranges| && InBracket(ranges[k], age)
    && forall j | 0 <= j < k :: !InBracket(ranges[j], age)
  }

  /** `guide.ranges.find(r => InBracket(r, age))`. */
  function RangeFor(g: Guide, age: real): (r: Option<Range>)
    ensures r.None? <==> forall k | 0 <= k < |g.ranges| :: !InBracket(g.ranges[k], age)
    ensures r.Some? ==> r.value in g.ranges && InBracket(r.value, age)
    ensures forall k | FirstInBracket(g.ranges, age, k) :: r == Some(g.ranges[k])
  {
    Find(g.ranges, (rg: Range) => InBracket(rg, age))
  }

  /** `getGuideForTestAndAge`: the first guide of exactly this type, then
      the first of its ranges containing the age; null otherwise. */
  function GetGuideForTestAndAge(guideList: seq<Guide>, testType: string, age: real): (r: Option<Range>)
    ensures (forall i | 0 <= i < |guideList| :: guideList[i].testType != testType) ==> r.None?
    ensures r.Some? ==> InBracket(r.value, age)
    ensures forall i | FirstOfType(guideList, testType, i) ::
              && (r.Some? ==> r.value in guideList[i].ranges)
              && (r.None? <==> forall k | 0 <= k < |guideList[i].ranges| :: !InBracket(guideList[i].ranges[k], age))
              && (forall k | FirstInBracket(guideList[i].ranges, age, k) :: r == Some(guideList[i].ranges[k]))
  {
    match FirstGuideOfType(guideList, testType)
    case None => None
    case Some(guide) => RangeFor(guide, age)
  }

  /** `getStatus(value, min, max)`: ↓ below an existing `min`, else ↑ above
      an existing `max`, else ↔; a value on a bound is normal. */
  function GetStatus(value: real, min: Option<real>, max: Option<real>): (m: Mark)
    ensures m == LowMark <==> min.Some? && value < min.value
    ensures m == HighMark <==> !(min.Some? && value < min.value) && max.Some? && value > max.value
    ensures m == NormalMark <==> (min.None? || min.value <= value) && (max.None? || value <= max.value)
    ensures m != NoRangeMark
  {
    if min.Some? && value < min.value then LowMark
    else if max.Some? && value > max.value then HighMark
    else NormalMark
  }

  // ---------------------------------------------------------------------
  // The analyses modal

  /** What one (test, type) pair renders: "Guide bulunamadı." under the
      timestamp, or a table row with the value, `min - max` and the status. */
  datatype Cell =
    | GuideNotFound(timestamp: Timestamp)
    | Status(timestamp: Timestamp, testType: string, value: real, min: Option<real>, max: Option<real>, mark: Mark)

  /** The body of the modal: "No tests available." or one block of seven
      cells per test, where a cell is absent (`return null`) when the
      selected collection was not loaded. */
  datatype AnalysesView = NoTestsAvailable | Blocks(blocks: seq<seq<Option<Cell>>>)

  /** `timestamp?.seconds || 0`, negated: the comparator `timeB - timeA`. */
  function NewestKey(t: TestRecord): int
  {
    -Seconds(t)
  }

  /** `tests.slice().sort(...)`: a sorted copy, newest first, holding the
      same tests. */
  function NewestFirst(tests: seq<TestRecord>): (r: seq<TestRecord>)
    ensures |r| == |tests| && multiset(r) == multiset(tests)
    ensures forall i, j | 0 <= i < j < |r| :: Seconds(r[i]) >= Seconds(r[j])
    ensures forall k :: WithKey(r, NewestKey, k) == WithKey(tests, NewestKey, k)
  {
    var r := SortBy(tests, NewestKey);
    assert forall i, j | 0 <= i < j < |r| :: NewestKey(r[i]) <= NewestKey(r[j]);
    r
  }

  /** The cell of one type of one test. The value `test[testType] || 0` is
      classified even when it is missing, and the age comes in already
      defaulted. */
  function CellFor(guides: map<string, seq<Guide>>, selectedGuide: string, userAge: real, test: TestRecord, testType: string): (c: Option<Cell>)
    ensures c.None? <==> selectedGuide !in guides
    ensures c.Some? ==>
      var range := GetGuideForTestAndAge(guides[selectedGuide], testType, userAge);
      && (c.value.GuideNotFound? <==> range.None?)
      && c.value.timestamp == test.timestamp
      && (range.Some? ==>
            var value := OrZero(ValueOf(test, testType));
            c.value == Status(test.timestamp, testType, value, range.value.min, range.value.max,
                              GetStatus(value, range.value.min, range.value.max)))
  {
    if selectedGuide !in guides then None
    else
      var guideList := guides[selectedGuide];
      var range := GetGuideForTestAndAge(guideList, testType, userAge);
      var testValue := OrZero(ValueOf(test, testType));
      if range.None? then Some(GuideNotFound(test.timestamp))
      else
        var status := GetStatus(testValue, range.value.min, range.value.max);
        Some(Status(test.timestamp, testType, testValue, range.value.min, range.value.max, status))
  }

  function TestCells(guides: map<string, seq<Guide>>, selectedGuide: string, userAge: real, test: TestRecord): (cells: seq<Option<Cell>>)
    ensures |cells| == |TestTypes|
    ensures forall k | 0 <= k < |TestTypes| :: cells[k] == CellFor(guides, selectedGuide, userAge, test, TestTypes[k])
  {
    seq(|TestTypes|, k requires 0 <= k < |TestTypes| => CellFor(guides, selectedGuide, userAge, test, TestTypes[k]))
  }

  /** The analyses modal for the selected collection: the tests newest first,
      each with its seven cells, the age `ageInMonths || 0`. */
  function AnalysesModal(guides: map<string, seq<Guide>>, selectedGuide: string, ageInMonths: Option<real>, tests: seq<TestRecord>): (v: AnalysesView)
    ensures v.NoTestsAvailable? <==> |tests| == 0
    ensures v.Blocks? ==> |v.blocks| == |tests|
    ensures v.Blocks? ==> forall i | 0 <= i < |tests| ::
      v.blocks[i] == TestCells(guides, selectedGuide, OrZero(ageInMonths), NewestFirst(tests)[i])
  {
    if |tests| == 0 then NoTestsAvailable
    else
      var sorted := NewestFirst(tests);
      var userAge := OrZero(ageInMonths);
      Blocks(seq(|sorted|, i requires 0 <= i < |sorted| => TestCells(guides, selectedGuide, userAge, sorted[i])))
  }

  /** The blocks are newest first, each shows its own test's timestamp, and
      every cell is absent exactly when the collection was not loaded. */
  lemma AnalysesModalCells(guides: map<string, seq<Guide>>, selectedGuide: string, ageInMonths: Option<real>,
                           tests: seq<TestRecord>, i: nat, j: nat, k: nat)
    requires i < j < |tests| && k < |TestTypes|
    requires selectedGuide in guides
    ensures var v := AnalysesModal(guides, selectedGuide, ageInMonths, tests);
      && v.Blocks?
      && v.blocks[i][k].Some? && v.blocks[j][k].Some?
      && TimeKey(v.blocks[i][k].value.timestamp) >= TimeKey(v.blocks[j][k].value.timestamp)
  {
    var sorted := NewestFirst(tests);
    assert Seconds(sorted[i]) >= Seconds(sorted[j]);
  }

  /** A missing or null value is classified exactly as a stored 0. */
  lemma MissingValueAsZero(guides: map<string, seq<Guide>>, selectedGuide: string, userAge: real, test: TestRecord, testType: string)
    requires ValueOf(test, testType).None?
    ensures var zero := CellFor(guides, selectedGuide, userAge, test, testType);
      zero.Some? && zero.value.Status? ==> zero.value.value == 0.0 && zero.value.mark == GetStatus(0.0, zero.value.min, zero.value.max)
  {
  }
}
