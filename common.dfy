/** Vocabulary shared by the three dashboard revisions: the record shapes they
    read from the document store, the fixed list of immunoglobulin test types,
    the status marks they render, and the JavaScript array operations the
    evaluators are written with (`find`, `filter` and the stable `sort`). */
module Common {

  datatype Option<+T> = None | Some(value: T)

  /** `x ?? 0` and `x || 0` on a nullable number (the two differ only on NaN,
      which is not modelled), and `safeTestValue`,
      `typeof testValue === 'number' ? testValue : 0`. */
  function OrZero(x: Option<real>): real
  {
    if x.Some? then x.value else 0.0
  }

  /** One age bracket of a guide: ages in months, `min`/`max` bound the value. */
  datatype Range = Range(
    ageGroup: string,
    ageMin: Option<real>,
    ageMax: Option<real>,
    min: Option<real>,
    max: Option<real>)

  /** A reference table for one test type. */
  datatype Guide = Guide(testType: string, ranges: seq<Range>)

  /** A Firestore `Timestamp` carries its seconds; anything else stored in the
      `timestamp` field (a number, a `Date`, nothing) sorts as 0. */
  datatype Timestamp = Firestore(seconds: int) | NotFirestore

  /** An upper age limit after `?? Infinity` or `|| Infinity`. */
  datatype AgeBound = Finite(limit: real) | Infinity

  predicate AtMost(age: real, b: AgeBound)
  {
    b.Infinity? || age <= b.limit
  }

  /** One test observation: up to seven nullable values and a time. */
  datatype TestRecord = TestRecord(
    IgA: Option<real>,
    IgM: Option<real>,
    IgG: Option<real>,
    IgG1: Option<real>,
    IgG2: Option<real>,
    IgG3: Option<real>,
    IgG4: Option<real>,
    timestamp: Timestamp)

  datatype User = User(id: string, firstName: string, lastName: string, ageInMonths: Option<real>)

  /** The order in which every screen walks the test types. */
  const TestTypes: seq<string> := ["IgA", "IgM", "IgG", "IgG1", "IgG2", "IgG3", "IgG4"]

  /** `test[testType]`: the value stored under one of the seven keys, or
      `undefined` (None) for any other key. */
  function ValueOf(t: TestRecord, testType: string): (v: Option<real>)
    ensures testType !in TestTypes ==> v == None
  {
    if testType == "IgA" then t.IgA
    else if testType == "IgM" then t.IgM
    else if testType == "IgG" then t.IgG
    else if testType == "IgG1" then t.IgG1
    else if testType == "IgG2" then t.IgG2
    else if testType == "IgG3" then t.IgG3
    else if testType == "IgG4" then t.IgG4
    else None
  }

  /** `ts instanceof Timestamp ? ts.seconds : 0` and `ts?.seconds || 0`,
      which agree on every stored timestamp. */
  function TimeKey(ts: Timestamp): int
  {
    if ts.Firestore? then ts.seconds else 0
  }

  /** The sort key of the test lists. */
  function Seconds(t: TestRecord): int
  {
    TimeKey(t.timestamp)
  }

  /** Outcome of comparing a value with a range's `min` and `max`. */
  datatype Verdict = Low | High | Normal

  /** The symbol and colour a status cell is rendered with. */
  datatype Mark = Mark(symbol: string, color: string)

  const NoRangeMark: Mark := Mark("N/A", "grey")
  const LowMark: Mark := Mark("↓", "red")
  const HighMark: Mark := Mark("↑", "orange")
  const NormalMark: Mark := Mark("↔", "green")

  /** The mark each verdict is rendered with. */
  function MarkOf(v: Verdict): (m: Mark)
    ensures m != NoRangeMark
  {
    match v
    case Low => LowMark
    case High => HighMark
    case Normal => NormalMark
  }

  /** The reference-range cell: `${min} - ${max}` with the bounds as stored
      (a null bound prints as "null"), or "N/A". Number formatting is not
      modelled; the cell keeps the two bounds it would print. */
  datatype RefText = Shown(min: Option<real>, max: Option<real>) | NotAvailable

  const RisingSymbol: string := "▲"
  const FallingSymbol: string := "▼"
  const SteadySymbol: string := "▬"
  const NoTrendSymbol: string := "N/A"

  /** The "Change" cell of the edit modal. `previous` is the previous
      observation's value when that is a number, None when there is no
      previous observation or its value is not a number; a null current
      value is compared as 0 (`safeTestValue`). */
  function TrendSymbol(current: Option<real>, previous: Option<real>): (s: string)
    ensures s == NoTrendSymbol <==> previous.None?
    ensures s == RisingSymbol <==> previous.Some? && OrZero(current) > previous.value
    ensures s == FallingSymbol <==> previous.Some? && OrZero(current) < previous.value
    ensures s == SteadySymbol <==> previous.Some? && OrZero(current) == previous.value
  {
    if previous.Some? then
      var now := OrZero(current);
      if now > previous.value then RisingSymbol
      else if now < previous.value then FallingSymbol
      else SteadySymbol
    else NoTrendSymbol
  }

  /** Reversing the two observations turns a rise into a fall and keeps a
      steady trend steady. */
  lemma TrendAntisymmetric(a: real, b: real)
    ensures TrendSymbol(Some(a), Some(b)) == RisingSymbol <==> TrendSymbol(Some(b), Some(a)) == FallingSymbol
    ensures TrendSymbol(Some(a), Some(b)) == SteadySymbol <==> TrendSymbol(Some(b), Some(a)) == SteadySymbol
  {
  }

  /** A null current value is not "N/A": it is compared as 0, so it shows a
      fall against any positive previous value. Only a missing previous
      value gives "N/A". */
  lemma NullCurrentTrend(previous: real)
    requires previous > 0.0
    ensures TrendSymbol(None, Some(previous)) == FallingSymbol
    ensures TrendSymbol(None, Some(0.0)) == SteadySymbol
    ensures TrendSymbol(Some(previous), None) == NoTrendSymbol
  {
  }

  // ---------------------------------------------------------------------
  // `Array.prototype.find` and `Array.prototype.filter`

  /** `s.find(p)`: the first element satisfying `p`, or `undefined`. */
  function Find<T>(s: seq<T>, p: T -> bool): (r: Option<T>)
    ensures r.None? <==> forall i | 0 <= i < |s| :: !p(s[i])
    ensures r.Some? ==> r.value in s && p(r.value)
    ensures forall i | 0 <= i < |s| && p(s[i]) && (forall j | 0 <= j < i :: !p(s[j])) :: r == Some(s[i])
  {
    if |s| == 0 then None
    else if p(s[0]) then Some(s[0])
    else
      var r := Find(s[1..], p);
      assert forall i | 1 <= i < |s| :: s[i] == s[1..][i - 1];
      r
  }

  /** Two predicates that agree on every element find the same element. */
  lemma {:induction false} FindAgrees<T>(s: seq<T>, p: T -> bool, q: T -> bool)
    requires forall i | 0 <= i < |s| :: p(s[i]) == q(s[i])
    ensures Find(s, p) == Find(s, q)
  {
    if |s| != 0 && !p(s[0]) {
      assert forall i | 0 <= i < |s[1..]| :: s[1..][i] == s[i + 1];
      FindAgrees(s[1..], p, q);
    }
  }

  /** `s.filter(p)`: the elements satisfying `p`, in their original order. */
  function Filter<T>(s: seq<T>, p: T -> bool): (r: seq<T>)
    ensures |r| <= |s|
    ensures forall i | 0 <= i < |r| :: r[i] in s && p(r[i])
    ensures forall i | 0 <= i < |s| && p(s[i]) :: s[i] in r
  {
    if |s| == 0 then []
    else (if p(s[0]) then [s[0]] else []) + Filter(s[1..], p)
  }

  /** Filtering a concatenation filters each part: together with the value on
      a one-element sequence this pins down the order of the result. */
  lemma {:induction false} FilterAppend<T>(a: seq<T>, b: seq<T>, p: T -> bool)
    ensures Filter(a + b, p) == Filter(a, p) + Filter(b, p)
  {
    if |a| == 0 {
      assert a + b == b;
    } else {
      assert (a + b)[1..] == a[1..] + b;
      FilterAppend(a[1..], b, p);
    }
  }

  /** The concatenation of `f(x)` over `s`, in order: what a `forEach` that
      pushes `f(x)` for every `x` leaves in its output list. */
  function ConcatMap<T, U>(s: seq<T>, f: T -> seq<U>): seq<U>
  {
    if |s| == 0 then [] else ConcatMap(s[..|s| - 1], f) + f(s[|s| - 1])
  }

  /** One more iteration of the loop appends the output of its element. */
  lemma ConcatMapStep<T, U>(s: seq<T>, f: T -> seq<U>, t: nat)
    requires t < |s|
    ensures ConcatMap(s[..t + 1], f) == ConcatMap(s[..t], f) + f(s[t])
  {
    assert s[..t + 1][..t] == s[..t];
  }

  lemma {:induction false} ConcatMapAppend<T, U>(a: seq<T>, b: seq<T>, f: T -> seq<U>)
    ensures ConcatMap(a + b, f) == ConcatMap(a, f) + ConcatMap(b, f)
    decreases |b|
  {
    if |b| == 0 {
      assert a + b == a;
    } else {
      var b' := b[..|b| - 1];
      assert (a + b)[..|a + b| - 1] == a + b';
      assert (a + b)[|a + b| - 1] == b[|b| - 1];
      ConcatMapAppend(a, b', f);
    }
  }

  // ---------------------------------------------------------------------
  // `slice().sort(comparator)` with a numeric-difference comparator. The
  // sort is stable: elements with equal keys keep their relative order.

  ghost predicate SortedBy<T>(s: seq<T>, key: T -> int)
  {
    forall i, j | 0 <= i < j < |s| :: key(s[i]) <= key(s[j])
  }

  /** Places `x` before the first element whose key is not smaller. */
  function Insert<T>(x: T, s: seq<T>, key: T -> int): (r: seq<T>)
    ensures multiset(r) == multiset(s) + multiset{x}
    ensures |r| == |s| + 1 && (r[0] == x || (|s| > 0 && r[0] == s[0]))
  {
    if |s| == 0 then [x]
    else if key(x) <= key(s[0]) then [x] + s
    else
      assert s == [s[0]] + s[1..];
      [s[0]] + Insert(x, s[1..], key)
  }

  lemma {:induction false} InsertSorted<T>(x: T, s: seq<T>, key: T -> int)
    requires SortedBy(s, key)
    ensures SortedBy(Insert(x, s, key), key)
  {
    var r := Insert(x, s, key);
    if |s| == 0 {
    } else if key(x) <= key(s[0]) {
      forall i, j | 0 <= i < j < |r| ensures key(r[i]) <= key(r[j]) {
        if i == 0 {
          assert key(s[0]) <= key(s[j - 1]);
        }
      }
    } else {
      var rest := Insert(x, s[1..], key);
      InsertSorted(x, s[1..], key);
      assert r == [s[0]] + rest;
      assert key(s[0]) <= key(rest[0]) by {
        if rest[0] != x {
          assert rest[0] == s[1..][0] == s[1];
        }
      }
      forall i, j | 0 <= i < j < |r| ensures key(r[i]) <= key(r[j]) {
        assert r[j] == rest[j - 1];
        if i == 0 {
          assert key(rest[0]) <= key(rest[j - 1]);
        } else {
          assert r[i] == rest[i - 1];
        }
      }
    }
  }

  /** Ascending order by `key`; the input is not changed (it is a value).
      The sort is stable: for every key, the subsequence of the elements
      with that key is the same as in the input. */
  function SortBy<T>(s: seq<T>, key: T -> int): (r: seq<T>)
    ensures |r| == |s|
    ensures multiset(r) == multiset(s)
    ensures SortedBy(r, key)
    ensures forall k :: WithKey(r, key, k) == WithKey(s, key, k)
  {
    if |s| == 0 then []
    else
      assert s == [s[0]] + s[1..];
      var rest := SortBy(s[1..], key);
      var r := Insert(s[0], rest, key);
      InsertSorted(s[0], rest, key);
      assert |r| == |multiset(r)|;
      assert forall k :: WithKey(r, key, k) == WithKey(s, key, k) by {
        forall k ensures WithKey(r, key, k) == WithKey(s, key, k) {
          InsertWithKey(s[0], rest, key, k);
          WithKeyCons(s[0], s[1..], key, k);
        }
      }
      r
  }

  /** The subsequence of the elements whose key is `k`. */
  function WithKey<T>(s: seq<T>, key: T -> int, k: int): seq<T>
  {
    if |s| == 0 then []
    else (if key(s[0]) == k then [s[0]] else []) + WithKey(s[1..], key, k)
  }

  lemma WithKeyCons<T>(y: T, t: seq<T>, key: T -> int, k: int)
    ensures WithKey([y] + t, key, k) == (if key(y) == k then [y] else []) + WithKey(t, key, k)
  {
    assert ([y] + t)[0] == y && ([y] + t)[1..] == t;
  }

  lemma {:induction false} InsertWithKey<T>(x: T, s: seq<T>, key: T -> int, k: int)
    decreases |s|, 1
    ensures WithKey(Insert(x, s, key), key, k)
         == (if key(x) == k then [x] else []) + WithKey(s, key, k)
  {
    if |s| == 0 {
      WithKeyCons(x, [], key, k);
    } else if key(x) <= key(s[0]) {
      WithKeyCons(x, s, key, k);
    } else {
      InsertWithKeyLater(x, s, key, k);
    }
  }

  lemma {:induction false} InsertWithKeyLater<T>(x: T, s: seq<T>, key: T -> int, k: int)
    requires |s| > 0 && key(x) > key(s[0])
    ensures WithKey(Insert(x, s, key), key, k)
         == (if key(x) == k then [x] else []) + WithKey(s, key, k)
    decreases |s|, 0
  {
    var rest := Insert(x, s[1..], key);
    var head: seq<T> := if key(s[0]) == k then [s[0]] else [];
    var mine: seq<T> := if key(x) == k then [x] else [];
    var tail := WithKey(s[1..], key, k);
    assert Insert(x, s, key) == [s[0]] + rest;
    InsertWithKey(x, s[1..], key, k);
    WithKeyCons(s[0], rest, key, k);
    assert WithKey(s, key, k) == head + tail;
    if key(x) == k {
      assert head == [];
      assert WithKey(Insert(x, s, key), key, k) == mine + tail;
    } else {
      assert mine == [];
      assert WithKey(Insert(x, s, key), key, k) == head + tail;
    }
  }

  // ---------------------------------------------------------------------
  // Guide lookup by test type: every revision compares `testType` exactly
  // (case-sensitively) and keeps only the first guide of that type.

  ghost predicate FirstOfType(guides: seq<Guide>, testType: string, i: int)
  {
    0 <= i < |guides| && guides[i].testType == testType
    && forall j | 0 <= j < i :: guides[j].testType != testType
  }

  /** `guides.find(g => g.testType === testType)`. */
  function FirstGuideOfType(guides: seq<Guide>, testType: string): (r: Option<Guide>)
    ensures r.None? <==> forall i | 0 <= i < |guides| :: guides[i].testType != testType
    ensures forall i | FirstOfType(guides, testType, i) :: r == Some(guides[i])
  {
    Find(guides, (g: Guide) => g.testType == testType)
  }

  /** `guides.filter(g => g.testType === testType)`. */
  function GuidesOfType(guides: seq<Guide>, testType: string): (r: seq<Guide>)
    ensures forall i | 0 <= i < |r| :: r[i] in guides && r[i].testType == testType
    ensures forall i | 0 <= i < |guides| && guides[i].testType == testType :: guides[i] in r
  {
    Filter(guides, (g: Guide) => g.testType == testType)
  }

  // ---------------------------------------------------------------------
  // Rows of the edit modal (the same shape in both admin revisions).

  /** One test type of one observation: the raw value (None prints "N/A"),
      the reference cell, the status mark and the change arrow. */
  datatype EditRow = EditRow(testType: string, shown: Option<real>, reference: RefText, mark: Mark, change: string)

  /** `index > 0 ? testsArray[index - 1] : null`. */
  function Previous(sorted: seq<TestRecord>, index: nat): (p: Option<TestRecord>)
    requires index < |sorted|
    ensures p.None? <==> index == 0
    ensures p.Some? ==> p.value == sorted[index - 1]
  {
    if index > 0 then Some(sorted[index - 1]) else None
  }

  /** One observation of the edit modal with its seven rows. */
  datatype EditBlock = EditBlock(test: TestRecord, rows: seq<EditRow>)

  // ---------------------------------------------------------------------
  // Editing a guide's ranges (the bodies of the state updaters of the two
  // admin revisions, which are the same).

  datatype Field = AgeMin | AgeMax | Min | Max

  /** The text typed into a numeric field: empty, or what `parseFloat` read. */
  datatype FieldInput = EmptyText | NumberText(parsed: real)

  /** `value ? parseFloat(value) : null`. */
  function InputValue(v: FieldInput): Option<real>
  {
    if v.EmptyText? then None else Some(v.parsed)
  }

  function FieldOf(r: Range, f: Field): Option<real>
  {
    match f
    case AgeMin => r.ageMin
    case AgeMax => r.ageMax
    case Min => r.min
    case Max => r.max
  }

  /** `{ ...r, [f]: v }`. */
  function WithField(r: Range, f: Field, v: Option<real>): (r': Range)
    ensures FieldOf(r', f) == v
    ensures forall g: Field | g != f :: FieldOf(r', g) == FieldOf(r, g)
    ensures r'.ageGroup == r.ageGroup
  {
    match f
    case AgeMin => r.(ageMin := v)
    case AgeMax => r.(ageMax := v)
    case Min => r.(min := v)
    case Max => r.(max := v)
  }

  /** The guide after `handleGuideChange(index, field, value)`. */
  function ChangeRangeField(g: Guide, index: nat, field: Field, input: FieldInput): (g': Guide)
    requires index < |g.ranges|
    ensures g'.testType == g.testType && |g'.ranges| == |g.ranges|
    ensures forall j | 0 <= j < |g.ranges| && j != index :: g'.ranges[j] == g.ranges[j]
    ensures FieldOf(g'.ranges[index], field) == InputValue(input)
    ensures forall f: Field | f != field :: FieldOf(g'.ranges[index], f) == FieldOf(g.ranges[index], f)
    ensures g'.ranges[index].ageGroup == g.ranges[index].ageGroup
  {
    g.(ranges := g.ranges[index := WithField(g.ranges[index], field, InputValue(input))])
  }

  /** The guide after `handleAgeGroupChange(index, value)`. */
  function RenameAgeGroup(g: Guide, index: nat, value: string): (g': Guide)
    requires index < |g.ranges|
    ensures g'.testType == g.testType && |g'.ranges| == |g.ranges|
    ensures forall j | 0 <= j < |g.ranges| && j != index :: g'.ranges[j] == g.ranges[j]
    ensures g'.ranges[index].ageGroup == value
    ensures forall f: Field :: FieldOf(g'.ranges[index], f) == FieldOf(g.ranges[index], f)
  {
    g.(ranges := g.ranges[index := g.ranges[index].(ageGroup := value)])
  }

  /** The range `addAgeGroup` appends. */
  const ZeroRange: Range := Range("", Some(0.0), Some(0.0), Some(0.0), Some(0.0))

  /** The guide after `addAgeGroup()`. */
  function WithNewAgeGroup(g: Guide): (g': Guide)
    ensures g'.testType == g.testType && |g'.ranges| == |g.ranges| + 1
    ensures g'.ranges[..|g.ranges|] == g.ranges
    ensures g'.ranges[|g.ranges|] == ZeroRange
  {
    g.(ranges := g.ranges + [ZeroRange])
  }
}
