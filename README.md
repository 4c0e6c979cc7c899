# Immunoglobulin reference-range evaluator

This project models the core of a React Native app for immunoglobulin lab
results. Administrators keep reference guides. Each guide is a test type
(IgA, IgM, IgG, IgG1 to IgG4) with a list of age brackets, and each bracket
has a `min` and `max` for the value. A patient's observations are judged
against these guides:

- the bracket that applies to the patient's age in months is found;
- the value is classified as low, high or normal, and shown as an arrow and a
  colour;
- in chronological order, each value is compared with the previous one (▲ ▼ ▬).

The evaluator is copied into three screens, with real differences between
the copies, and each copy is modelled on its own:

- `UserDashboard`: the administrator screen of `ornek1/UserDashboard.js`.
  It holds the evaluator, the "View Analyses" table (its nested loops are
  methods proved against a functional specification), the edit modal, the
  guide editor (a class whose methods are the React state updaters) and the
  guide-save validation.
- `AdminDashboard`: the administrator screen of `AdminDashboard.tsx`. It has
  its own evaluator, the edit modal and a guide editor that saves without
  validation. It also defines a `TestItem` component with per-test rows
  (modelled too), but the file never renders it, so it is dead code, and
  `handleEditTest`, reached only from it, is unreachable.
- `ViewTests`: the patient screen of `ViewTests.tsx`. It reads age limits
  with `||`, has `getStatus`, and its analyses modal lists tests newest first.
- `NameSearch`: `handleSearch`, the user filter. `AdminDashboard.tsx:161-174`
  and `ornek1/UserDashboard.js:511-523` contain the same code.
- `Revisions`: lemmas that relate the copies. The two administrator
  evaluators and edit modals are equal. The patient screen agrees with them
  except on ranges whose upper age limit is 0. `viewAnalyses` searches every
  guide of a type, while `getRangeForAge` searches only the first.
  Test types are matched case-sensitively.
- `Common`: what the three screens share:
  - the record shapes;
  - the seven test types;
  - the marks and trend symbols;
  - JavaScript's `find` and `filter`, and a stable `sort`;
  - the range-editing updates used by both guide editors.

Numbers are `real`. Timestamps are either a Firestore timestamp with integer
seconds or something else, which sorts as 0. Whenever the behaviour of the
code differs from a natural reading of the app's design, the model follows
the code:

- test types are compared case-sensitively in every copy;
- a null current value is compared as 0 in the change column, not shown as
  unknown (`Common.NullCurrentTrend`);
- in "View Analyses" the reference text is "N/A" whenever either bound is
  null, not only when no range is found;
- the check before a test is saved counts the timestamp among the values, so
  it never rejects, even when all seven values are null
  (`UserDashboard.TestSaveNeverRejects`).

## Model

| member | source | states |
|---|---|---|
| Common.FirstGuideOfType | ornek1/UserDashboard.js:345 | null exactly when no guide's `testType` equals the request (case-sensitive); otherwise the first guide of that type |
| Common.GuidesOfType | ornek1/UserDashboard.js:411 | keeps exactly the guides of the requested type |
| Common.Find | ornek1/UserDashboard.js:348-350 | `find` gives undefined iff no element satisfies the predicate, else the element at the first satisfying index |
| Common.Filter | ornek1/UserDashboard.js:411 | `filter` keeps only satisfying elements, from the input, and every satisfying element |
| Common.FilterAppend | ornek1/UserDashboard.js:411 | filtering a concatenation filters each part, so the result keeps the input order |
| Common.SortBy | ornek1/UserDashboard.js:776-782 | the sorted copy has the same elements (multiset), is ascending by the key, and keeps the relative order of elements with equal keys |
| Common.ConcatMapAppend | ornek1/UserDashboard.js:404-406 | what a `forEach` pushes for a concatenation is what it pushes for each part, in order |
| Common.Previous | ornek1/UserDashboard.js:785 | `index > 0 ? testsArray[index - 1] : null`: none exactly at index 0, otherwise the element just before |
| Common.MarkOf | ornek1/UserDashboard.js:376-387 | low, high and normal become ↓ red, ↑ orange and ↔ green, never the N/A mark |
| Common.TrendSymbol | ornek1/UserDashboard.js:819-825 | N/A iff there is no numeric previous value; otherwise ▲, ▼ or ▬ as the current value (null as 0) is above, below or equal to it |
| Common.TrendAntisymmetric | AdminDashboard.tsx:724-730 | swapping the two values turns ▲ into ▼ and keeps ▬ |
| Common.NullCurrentTrend | AdminDashboard.tsx:705 | a null current value gives ▼ against a positive previous value and ▬ against 0; only a missing previous value gives N/A |
| Common.ChangeRangeField | ornek1/UserDashboard.js:175-192 | only the chosen field of `ranges[index]` changes, to null for empty input and the number otherwise; other ranges, other fields, the label, the type and the length stay |
| Common.RenameAgeGroup | ornek1/UserDashboard.js:195-202 | only the label of `ranges[index]` changes; other ranges and the four numbers stay |
| Common.WithNewAgeGroup | ornek1/UserDashboard.js:205-223 | exactly one range is appended, with an empty label and four zeros; the old ranges are a prefix |
| UserDashboard.RangeFor | ornek1/UserDashboard.js:348-351 | undefined iff no range holds the age with `(ageMin ?? 0) <= age <= (ageMax ?? ∞)`; otherwise the first range that holds it |
| UserDashboard.GetRangeForAge | ornek1/UserDashboard.js:344-352 | null when no guide has the exact type; only the first guide of the type is searched; the first range of it that holds the age, or null when none does |
| UserDashboard.CompareValueWithRange | ornek1/UserDashboard.js:354-362 | low iff `min` is non-null and the value is below it; high iff not low and the value is above a non-null `max`; normal iff within the bounds, inclusive |
| UserDashboard.EvaluateTestResult | ornek1/UserDashboard.js:364-388 | N/A grey iff no range applies; ↓ ↑ ↔ iff the range's verdict is low, high or normal |
| UserDashboard.SecondBracketExample | ornek1/UserDashboard.js:344-388 | with brackets 0-12 and 13-36 months, age 24 takes the second bracket and 15 is low against its minimum of 20 |
| UserDashboard.NoBracketExample | ornek1/UserDashboard.js:344-388 | with the same brackets, age 100 has no bracket and gets N/A |
| UserDashboard.RangeInGuides | ornek1/UserDashboard.js:415-445 | a range found by the loop over the same-type guides holds the age |
| UserDashboard.RangeInGuidesNone | ornek1/UserDashboard.js:415-445 | the loop finds nothing exactly when no same-type guide has a range for the age |
| UserDashboard.RangeInGuidesFirst | ornek1/UserDashboard.js:415-444 | the loop stops (`break`) at the first guide that has a range for the age and takes that guide's first covering range |
| UserDashboard.ReferenceText | ornek1/UserDashboard.js:438 | `min - max` iff both bounds are non-null, otherwise N/A |
| UserDashboard.AnalysisRowFor | ornek1/UserDashboard.js:407-453 | no row iff the value is null or undefined or no guide has the type; otherwise one row with the value, the N/A mark iff no same-type guide covers the age, and else the verdict's mark and reference text |
| UserDashboard.AnalysesAppend | ornek1/UserDashboard.js:404-456 | rows follow the order of the tests |
| UserDashboard.TestRowsAppend | ornek1/UserDashboard.js:405-406 | within a test, rows follow the order of the test types |
| UserDashboard.AnalysesOfOne | ornek1/UserDashboard.js:404-406 | one test yields exactly the rows of its seven (test, type) pairs |
| UserDashboard.AnalysesStep | ornek1/UserDashboard.js:404-455 | one more test of the outer `forEach` appends exactly that test's rows |
| UserDashboard.TestRowsStep | ornek1/UserDashboard.js:406-454 | one more type of the inner `forEach` appends exactly that pair's row, if any |
| UserDashboard.FoundRow | ornek1/UserDashboard.js:415-443 | when the `j`-th same-type guide is the first to cover the age, the row has its range's reference text and verdict mark |
| UserDashboard.NotFoundRow | ornek1/UserDashboard.js:446-453 | when no same-type guide covers the age, the row is N/A in grey with reference N/A |
| UserDashboard.RowForRange | ornek1/UserDashboard.js:420-440 | the row built inside the loop: the verdict mark of `min`/`max` and `min - max` only when both are set |
| UserDashboard.PushRowForPair | ornek1/UserDashboard.js:407-453 | the loop with `found` and `break` appends exactly the row `AnalysisRowFor` specifies, or nothing |
| UserDashboard.PushRowsForTest | ornek1/UserDashboard.js:405-454 | the inner `forEach` appends the rows of the seven types in order |
| UserDashboard.ViewAnalyses | ornek1/UserDashboard.js:391-456 | the table is `Analyses` of the user's loaded tests (none when not loaded), with a null age taken as 0 |
| UserDashboard.EditRowFor | ornek1/UserDashboard.js:798-825 | one row: the type, the raw value, the reference `min - max` iff `getRangeForAge` finds a range (N/A otherwise), the mark of the value with null as 0, and the trend of that value against the previous observation's value of the type |
| UserDashboard.EditRows | ornek1/UserDashboard.js:797-826 | seven rows in IgA…IgG4 order, each with its raw value, the mark of the value with null taken as 0, and the trend against the same type of the previous observation |
| UserDashboard.EditBlocks | ornek1/UserDashboard.js:783-785 | each observation is paired with the element before it in the sorted list; the first has no previous observation |
| UserDashboard.EditModal | ornek1/UserDashboard.js:775-832 | empty without a user id or loaded tests; otherwise the sorted tests, ascending by seconds, each with its rows against the block before it |
| UserDashboard.EditModalRows | ornek1/UserDashboard.js:797-826 | each row in the modal shows the type, the value, the reference iff a range applies, the mark of the value with null as 0, N/A change in the first block, and otherwise the trend against the block before it |
| UserDashboard.ValidateGuide | ornek1/UserDashboard.js:526-541 | nothing happens without a guide or a selected test; a guide with no ranges, or with a range missing any of its four numbers, is rejected with its message; otherwise exactly the guide is submitted |
| UserDashboard.GuideEditor.HandleSelectTest | ornek1/UserDashboard.js:226-232 | selects the test and starts a guide of that type with no ranges |
| UserDashboard.GuideEditor.HandleGuideChange | ornek1/UserDashboard.js:175-192 | the guide becomes `ChangeRangeField` of it; no change without a guide; nothing else changes |
| UserDashboard.GuideEditor.HandleAgeGroupChange | ornek1/UserDashboard.js:195-202 | the guide becomes `RenameAgeGroup` of it; no change without a guide |
| UserDashboard.GuideEditor.AddAgeGroup | ornek1/UserDashboard.js:205-223 | the guide becomes `WithNewAgeGroup` of it; no change without a guide |
| UserDashboard.GuideEditor.HandleCloseGuideModal | ornek1/UserDashboard.js:260-264 | hides the modal and clears the test and the guide |
| UserDashboard.GuideEditor.SaveGuideToDatabase | ornek1/UserDashboard.js:526-554 | only a validated guide is written; a successful write closes and clears the editor, and otherwise nothing changes |
| UserDashboard.CountNonNull | ornek1/UserDashboard.js:277 | the number of non-null values: at most the number of values, and 0 exactly when every value is null |
| UserDashboard.TestSaveNeverRejects | ornek1/UserDashboard.js:276-281 | the timestamp is always counted, so "enter at least one test value" is never shown |
| AdminDashboard.UpperAge | AdminDashboard.tsx:366 | `ageMax ?? Infinity`: unbounded iff `ageMax` is null |
| AdminDashboard.RangeFor | AdminDashboard.tsx:365-367 | undefined iff no range holds the age with `age >= (ageMin ?? 0)` and `age <= (ageMax ?? Infinity)`; otherwise the first one that does |
| AdminDashboard.GetRangeForAge | AdminDashboard.tsx:361-369 | exact type match and first-guide-only search, then the first range holding the age, else null |
| AdminDashboard.CompareValueWithRange | AdminDashboard.tsx:371-379 | low iff below a non-null `min`; high iff not low and above a non-null `max`; normal iff within the bounds, inclusive |
| AdminDashboard.EvaluateTestResult | AdminDashboard.tsx:381-405 | N/A grey iff no range; ↓ red, ↑ orange and ↔ green iff the verdict is low, high or normal |
| AdminDashboard.TestItem | AdminDashboard.tsx:408-450 | the component is defined but never rendered; for what it would show: seven rows in type order, each with the raw value, the reference cell iff a range applies, and the mark of the value with null as 0 at the editing user's age (0 when there is none) |
| AdminDashboard.TestItemNullAsZero | AdminDashboard.tsx:421-426 | a null value gets the mark a stored 0 would get |
| AdminDashboard.EditRowFor | AdminDashboard.tsx:703-730 | one row: the type, the raw value, the reference `min - max` iff `getRangeForAge` finds a range (N/A otherwise), the mark of the value with null as 0 at the user's age, and its trend against the previous observation |
| AdminDashboard.EditRows | AdminDashboard.tsx:702-732 | seven rows in type order with the raw value, the mark with null as 0, and the trend against the previous observation |
| AdminDashboard.EditBlocks | AdminDashboard.tsx:688-690 | each observation is paired with the element before it in the sorted list |
| AdminDashboard.EditModal | AdminDashboard.tsx:680-737 | empty without a user id or loaded tests; otherwise the tests ascending by `timestamp.seconds` (non-timestamps as 0), each with its rows against the block before it |
| AdminDashboard.EditModalChronological | AdminDashboard.tsx:681-687 | the modal holds exactly the loaded tests (as a multiset) |
| AdminDashboard.GuideEditor.HandleSelectTest | AdminDashboard.tsx:176-182 | selects the test and starts a guide of that type with no ranges |
| AdminDashboard.GuideEditor.HandleGuideChange | AdminDashboard.tsx:184-201 | the guide becomes `ChangeRangeField` of it; no change without a guide |
| AdminDashboard.GuideEditor.HandleAgeGroupChange | AdminDashboard.tsx:203-210 | the guide becomes `RenameAgeGroup` of it; no change without a guide |
| AdminDashboard.GuideEditor.AddAgeGroup | AdminDashboard.tsx:212-230 | the guide becomes `WithNewAgeGroup` of it; no change without a guide |
| AdminDashboard.GuideEditor.HandleCloseGuideModal | AdminDashboard.tsx:246-250 | hides the modal and clears the test and the guide |
| AdminDashboard.GuideEditor.SaveGuideToDatabase | AdminDashboard.tsx:232-244 | any guide is written without a check. A successful write hides the modal and clears the test but keeps the guide; without a guide nothing happens |
| ViewTests.LowerAge | ViewTests.tsx:190 | the lower limit read with a logical or against 0 equals the `??` reading: null is 0 |
| ViewTests.UpperAge | ViewTests.tsx:190 | the upper limit read with a logical or against Infinity is unbounded iff `ageMax` is null or 0 |
| ViewTests.ZeroAgeMaxUnbounded | ViewTests.tsx:190 | a range with `ageMax` 0 or null holds every age from its lower limit on |
| ViewTests.RangeFor | ViewTests.tsx:190 | undefined iff no range holds the age under the logical-or reading of its limits; otherwise the first one that does |
| ViewTests.GetGuideForTestAndAge | ViewTests.tsx:185-194 | exact type match, only the first matching guide searched, the first range holding the age, else null |
| ViewTests.GetStatus | ViewTests.tsx:197-208 | ↓ iff below a non-null `min`; ↑ iff not low and above a non-null `max`; ↔ iff within the bounds, so a value on a bound is normal |
| ViewTests.NewestFirst | ViewTests.tsx:361-368 | a copy with the same tests, in descending seconds (missing as 0); tests with equal seconds keep their list order |
| ViewTests.CellFor | ViewTests.tsx:373-415 | no cell iff the selected collection is not loaded; "Guide bulunamadı." iff no range; otherwise the value with missing as 0, the range's bounds and `getStatus` of them |
| ViewTests.TestCells | ViewTests.tsx:371-416 | one cell per type, in IgA…IgG4 order |
| ViewTests.AnalysesModal | ViewTests.tsx:360-420 | "No tests available." iff there are no tests; otherwise one block per test, newest first, at the user's age, 0 when it is null |
| ViewTests.AnalysesModalCells | ViewTests.tsx:361-397 | when the collection is loaded, earlier blocks show timestamps that are no older than later blocks |
| ViewTests.MissingValueAsZero | ViewTests.tsx:378 | a missing value is shown and classified as 0 |
| NameSearch.LowerChar | AdminDashboard.tsx:165 | maps A-Z and the Latin-1 capitals À-Þ (× excepted) 32 code points up, Ğ and Ş one up, and changes nothing else |
| NameSearch.ToLower | AdminDashboard.tsx:165 | lower-cases each character by `LowerChar` and keeps the length (JavaScript lengthens İ, which the model leaves unchanged) |
| NameSearch.ToLowerIdempotent | AdminDashboard.tsx:165-169 | lower-casing twice is lower-casing once |
| NameSearch.TrimEmptyIffBlank | AdminDashboard.tsx:163 | `text.trim() === ''` iff the text is only white space |
| NameSearch.Includes | AdminDashboard.tsx:168-169 | `includes` is true iff the needle occurs at some position |
| NameSearch.Search | AdminDashboard.tsx:161-174 | all users for a blank query; otherwise only users whose lower-cased first or last name contains the lower-cased query, and every such user |
| NameSearch.SearchKeepsOrder | AdminDashboard.tsx:166-170 | for a non-blank query, searching a concatenation searches each part, so the original order is kept |
| NameSearch.SearchOne | AdminDashboard.tsx:166-170 | a single user is kept exactly when a name matches |
| NameSearch.LowerKeepsBlank | AdminDashboard.tsx:163-165 | a query and its lower-cased form are blank together |
| NameSearch.LowerKeepsSpaces | AdminDashboard.tsx:165 | lower-casing keeps every white-space character and every other character non-white |
| NameSearch.TurkishQueryMatches | AdminDashboard.tsx:165-170 | the query "ş" finds a user named "Şahin" |
| NameSearch.SearchIgnoresQueryCase | AdminDashboard.tsx:165-170 | the result does not depend on the case of the query |
| NameSearch.UserSearch.HandleSearch | AdminDashboard.tsx:161-174 | records the query and shows `Search` of the loaded users for it |
| Revisions.AdminRangeForAgrees | AdminDashboard.tsx:365-367 | the `??` range test of both administrator screens picks the same range |
| Revisions.AdminEvaluatorAgrees | AdminDashboard.tsx:361-405 | both administrator screens find the same range and give the same mark for all inputs |
| Revisions.AdminEditRowAgrees | AdminDashboard.tsx:703-730 | both edit modals give the same row for an observation and type |
| Revisions.AdminEditRowsAgree | AdminDashboard.tsx:702-732 | both edit modals give the same rows for an observation |
| Revisions.AdminEditModalAgrees | AdminDashboard.tsx:680-737 | both edit modals are equal |
| Revisions.AdminTestItemMatchesEditRows | AdminDashboard.tsx:418-440 | a row of the (unrendered) `TestItem` component shows the same type, value, reference and mark as the edit-modal row |
| Revisions.ViewTestsBracketAgrees | ViewTests.tsx:190 | the logical-or and `??` readings agree for every range whose `ageMax` is not 0 |
| Revisions.ViewTestsRangeForAgrees | ViewTests.tsx:190 | without a 0 upper limit in the guide, both readings pick the same range |
| Revisions.ViewTestsLookupAgrees | ViewTests.tsx:185-194 | without a 0 upper limit, the patient screen finds the range the administrator screens find |
| Revisions.ZeroAgeMaxAlwaysDiverges | ViewTests.tsx:190 | for every range with `ageMax` 0 some age is held on the patient screen and not on the administrator screens |
| Revisions.ZeroAgeMaxDiverges | ViewTests.tsx:190 | a range with `ageMax` 0 holds age 24 on the patient screen but not on the administrator screens |
| Revisions.StatusAgrees | ViewTests.tsx:197-208 | `getStatus` on a range's bounds is the mark of `compareValueWithRange` |
| Revisions.FirstGuideOnly | ornek1/UserDashboard.js:344-352 | with two "IgA" guides of which only the second covers 24 months, `getRangeForAge` finds nothing and the mark is N/A |
| Revisions.ViewAnalysesSearchesEveryGuide | ornek1/UserDashboard.js:411-445 | on the same guides `viewAnalyses` goes on to the second guide and gives a normal row with its bounds |
| Revisions.MissingValueTreatments | ViewTests.tsx:378 | a missing value gives no "View Analyses" row but a classified 0 on the patient screen |
| Revisions.TestTypeCaseSensitive | ornek1/UserDashboard.js:345 | a guide stored as "IgA" is found for "IgA" but, in all three lookups, not for "iga" |

## Left out

- Firestore and authentication calls (fetching users, tests and guides, `addDoc`, `updateDoc`, sign-out, password change) are outside the model. Only their outcome is modelled: the loaded data are parameters, and whether a guide write succeeds is the `writeSucceeds` parameter.
- `parseFloat`, `Number` and the document normalisation that uses them are not modelled, and neither is NaN. Values arrive as `Option<real>`. A typed field arrives as `FieldInput`, either empty or an already parsed number.
- `formatTimestamp`, `toLocaleString` and the clock are outside the model: they depend on the locale and the current time. A `Timestamp` is modelled only through its seconds.
- JSX, styles, modal visibility flags other than the guide modal's, `console.log`, `ToastAndroid` and `Alert` are not modelled.
- Number-to-string formatting is not modelled. A reference cell keeps the two bounds it prints (`RefText`), and a value cell keeps the value.
- Common.SortBy: JavaScript's `sort` is taken to be stable, as recent engines guarantee, and is modelled by a stable insertion sort.
- UserDashboard.GuideEditor.HandleAgeGroupChange and AdminDashboard.GuideEditor.HandleAgeGroupChange: the code (ornek1/UserDashboard.js:195-202, AdminDashboard.tsx:203-210) also writes the label into the range object that the old state shares. The model updates a value, so this aliasing is not captured. The resulting state is the same.
- UserDashboard.GuideEditor.HandleGuideChange and AdminDashboard.GuideEditor.HandleGuideChange: an index past the end of the ranges would make a sparse array in JavaScript. The method requires an index within the ranges, which is what the editor's inputs pass.
- UserDashboard.GuideEditor.HandleAgeGroupChange and AdminDashboard.GuideEditor.HandleAgeGroupChange: an index past the end would throw a TypeError at `updatedRanges[index].ageGroup` (ornek1/UserDashboard.js:199, AdminDashboard.tsx:207). The method requires an index within the ranges, which is what the editor's inputs pass.
- NameSearch.ToLower: lower-cases A-Z, À-Þ (× excepted), Ğ and Ş, which covers the capitals of Turkish names except İ. JavaScript turns İ into two code units (i and a combining dot), which a per-character map cannot express, so the model leaves İ unchanged. The rest of Unicode is not modelled.
- NameSearch.IsSpace: `trim` is modelled with the ASCII white-space characters only.
- ViewTests.AnalysesModal: the modal that picks the guide collection is not modelled. The selected collection is a parameter, and the modal is only shown once one is selected.
- ViewTests.tsx reads tests without normalising them. The model assumes the same record shape as the administrator screens.
- `handleEditTest` of AdminDashboard.tsx is not modelled: only the unrendered `TestItem` calls it. `TestItem` prints its status symbol twice, once in the value's colour; the model keeps one mark.
- The user cards and the navigation are not modelled.
- Of `handleTestSave`, only the check on the values is modelled. The write, the form reset and the other test-form handlers are not.
