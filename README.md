# Proctoring dashboard logic, in Dafny

A model of the logic of a candidate-review dashboard for proctored exams. The
model has three parts, and each part is proved against its own specification:

- **Violation strip** (`Violations`, `violations.dfy`). It covers the
  `ProctoringViolations` component. A candidate's violation records are grouped
  by type in one pass. Each group adds up the counts, keeps the highest severity
  (low < medium < high) and collects the non-empty detail strings in input order.
  The groups are rendered in the order their types first appear. An empty list
  renders "No violations". The loop that updates the bucket map and the key-order
  list is proved equal to a left fold of the reduce callback. That fold is proved
  against separate per-type definitions: which types are present, the total count,
  the details and the maximum severity.
- **Filter panel** (`Filters`, `filters.dfy`). It covers the `ProctoringFilters`
  component. The filters are a fixed record of fourteen flags in five categories:
  window, image, device, time and severity. The model has the all-false default,
  the single-flag update built by object spread, the reset and the active-flag
  count. The panel is a class whose `filters` field is replaced on every change.
  Every change returns the value it reports to the parent.
- **Candidate page** (`Dashboard`, `dashboard.dfy`). It covers the `Index` page.
  It derives each candidate's maximum severity, which starts at 'low'. It counts
  the candidate's violation records. It runs the case-insensitive substring search
  over name and email; a blank term keeps everyone. It toggles the sort direction.
  It stores the filters reported by the panel and decides whether to notify. The
  page state is a class.
- **String built-ins** (`Text`, `text.dfy`). It covers the JavaScript string
  functions the search uses: `trim`, `toLowerCase` and `includes`.

The displayed list is filtered by the search term only. The page stores the
filter flags, counts them and announces "filters applied", but it never uses them
to narrow the list (`Page.HandleFiltersChange` proves that the displayed rows do
not change). The sort direction only chooses the chevron icon; no rows are
reordered. The code has no matching of candidates against the filter flags, no
filter presets, no category-wide toggles and no "none" severity for a candidate
without violations; the model follows the code.

## Model

| member | source | states |
|---|---|---|
| `Violations.Absorb` | src/components/ProctoringViolations.tsx:29-50 | one reduce step creates the record's bucket if missing, appends its type to the key order only then, and leaves every other type's bucket (and its presence) unchanged |
| `Violations.Fold` | src/components/ProctoringViolations.tsx:29-51 | the whole `reduce`: `Absorb` applied to the records from left to right, starting from the empty object; no contract of its own, its properties are proved by `FoldKeys`, `FoldOrderDistinct`, `FoldOrder`, `FoldCount`, `FoldDetails`, `FoldSeverity` and `FoldSummary` |
| `Violations.FoldKeys` | src/components/ProctoringViolations.tsx:29-36 | the grouped object has exactly one bucket per violation type present in the input, and the key order lists exactly those types |
| `Violations.TypesOfIff` | src/components/ProctoringViolations.tsx:29-36 | a type counts as present exactly when some record has that type |
| `Violations.FoldOrderDistinct` | src/components/ProctoringViolations.tsx:30-36 | the key order never lists a type twice, because a key is appended only when its bucket is created |
| `Violations.FoldOrder` | src/components/ProctoringViolations.tsx:30-36 | the key order lists types by increasing index of their first occurrence (first-seen order) |
| `Violations.FoldCount` | src/components/ProctoringViolations.tsx:38 | a bucket's count is the sum of `count` over all records of its type |
| `Violations.FoldDetails` | src/components/ProctoringViolations.tsx:46-48 | a bucket's details are exactly the present, non-empty `details` of its type's records, in input order |
| `Violations.FoldSeverity` | src/components/ProctoringViolations.tsx:41-44 | a bucket's highest severity is the severity of one of its records and no record of that type ranks higher under low=1 < medium=2 < high=3 |
| `Violations.FoldSummary` | src/components/ProctoringViolations.tsx:37-48 | every bucket of the fold carries its type's total count, truthy details in input order and highest severity |
| `Violations.FirstIndex` | src/components/ProctoringViolations.tsx:56 | the index returned holds the type and no earlier record has it (the position that fixes a type's place in the rendered order) |
| `Violations.TwoImageRecordsExample` | src/components/ProctoringViolations.tsx:29-51 | a medium and a low image record fold into one image bucket with count 2, severity medium and no details |
| `Violations.GroupViolations` | src/components/ProctoringViolations.tsx:29-51 | the loop over the records updating a bucket map and a key list yields the fold; the buckets are the types present, in first-seen order, each with total count, truthy details and maximum severity |
| `Violations.Render` | src/components/ProctoringViolations.tsx:20-56 | "No violations" exactly for the empty list; otherwise one entry per type present, no type twice, in first-seen order, each with its type's total count, details and highest severity |
| `Filters.DefaultFilters` | src/components/ProctoringFilters.tsx:45-70 | `defaultFilters`: every one of the fourteen flags is false |
| `Filters.Get` | src/components/ProctoringFilters.tsx:172-413 | the flag a checkbox shows, `filters[category][key]`; no contract of its own, `FiltersEqualIffSameFlags` and `SetFlag` state what it reads |
| `Filters.FiltersEqualIffSameFlags` | src/components/ProctoringFilters.tsx:18-43 | two filter values are equal exactly when all fourteen flags agree |
| `Filters.SetFlag` | src/components/ProctoringFilters.tsx:81-87 | after the spread update the chosen flag equals `checked`; every other flag, in the same category or any other, keeps its value, and untouched categories are identical |
| `Filters.CountActive` | src/components/ProctoringFilters.tsx:98-102 | the active count lies in 0..14 and is 0 exactly for `defaultFilters` (all fourteen flags false) |
| `Filters.AllSelectorsEnumerates` | src/components/ProctoringFilters.tsx:18-43 | the list of (category, key) pairs names every flag, each exactly once |
| `Filters.CategoryCountsCountSetFlags` | src/components/ProctoringFilters.tsx:100 | each category's `filter(Boolean).length` is the number of its flags that are set |
| `Filters.CountActiveCountsSetFlags` | src/components/ProctoringFilters.tsx:98-102 | the active count equals the number of true flags over all five categories |
| `Filters.CountSetAfterSetFlag` | src/components/ProctoringFilters.tsx:76-91 | over any list naming each flag at most once, a write moves the number of set flags by exactly the change of the written flag |
| `Filters.CountAfterSetFlag` | src/components/ProctoringFilters.tsx:76-102 | turning a false flag on raises the count by 1, turning a true flag off lowers it by 1, and writing a flag's current value leaves the whole value (and so the count) unchanged |
| `Filters.FilterPanel.constructor` | src/components/ProctoringFilters.tsx:73 | the panel starts at `defaultFilters` |
| `Filters.FilterPanel.HandleFilterChange` | src/components/ProctoringFilters.tsx:76-91 | the stored filters become the spread update of the old ones, and the value reported through `onFiltersChange` is the value stored |
| `Filters.FilterPanel.ClearFilters` | src/components/ProctoringFilters.tsx:93-96 | the stored and reported value is `defaultFilters` whatever the previous state, so clearing twice gives the state of clearing once |
| `Dashboard.MaxSeverity` | src/pages/Index.tsx:173-176 | a candidate's severity is 'low' without violations; otherwise it is one of the records' severities and no record ranks higher |
| `Dashboard.MaxSeverityIsHighestGroup` | src/pages/Index.tsx:172-176 | the candidate's severity is the highest severity of one of its type groups and no group's highest severity ranks above it |
| `Dashboard.WithSeverity` | src/pages/Index.tsx:172-183 | one entry per candidate in the same order, carrying the candidate unchanged, the number of its violation records (not the sum of their counts) and its maximum severity |
| `Dashboard.SearchMatch` | src/pages/Index.tsx:186-191 | the `filter` callback: a blank term, or the lowercased term found in the lowercased name or email; no contract of its own, its properties are proved by `SearchMatchIffOccurs`, `SearchIgnoresCase`, `BlankSearchKeepsAll` and `UpperCaseTermFindsSampleCandidate` |
| `Dashboard.Filter` | src/pages/Index.tsx:186 | `filter` keeps exactly the entries satisfying the predicate, each as many times as it occurs in the input, and drops every other entry |
| `Dashboard.FilterCandidates` | src/pages/Index.tsx:186-192 | an entry is in the displayed list exactly when it is in the input and matches the search term, with every occurrence of a matching entry kept; only the term is consulted, never the stored filters |
| `Dashboard.FilterCandidatesKeepsOrder` | src/pages/Index.tsx:186-192 | the displayed list is an order-preserving subsequence of the input |
| `Dashboard.BlankSearchKeepsAll` | src/pages/Index.tsx:187 | an empty or whitespace-only term keeps every candidate, in order |
| `Dashboard.SearchMatchIffOccurs` | src/pages/Index.tsx:187-189 | with a non-blank term, a candidate matches exactly when the lowercased, untrimmed term occurs as a substring of the lowercased name or of the lowercased email |
| `Dashboard.SearchIgnoresCase` | src/pages/Index.tsx:188-189 | the match does not depend on letter case in the term |
| `Dashboard.UpperCaseTermFindsSampleCandidate` | src/pages/Index.tsx:30-46 | the sample candidate "Jansy Alexander" is found by the term "JANSY" |
| `Dashboard.Toggled` | src/pages/Index.tsx:168 | toggling always changes the direction |
| `Dashboard.ToggleTwice` | src/pages/Index.tsx:167-169 | toggling twice restores the original direction |
| `Dashboard.Page.constructor` | src/pages/Index.tsx:141-149 | the page starts with an empty search, descending order and all filter flags false |
| `Dashboard.Page.Displayed` | src/pages/Index.tsx:382 | the table rows `filteredCandidates`: never more rows than candidates, and every row matches the current search term |
| `Dashboard.Page.SetSearch` | src/pages/Index.tsx:316 | the search term is replaced and nothing else changes |
| `Dashboard.Page.ToggleSortDirection` | src/pages/Index.tsx:167-169 | the direction flips (asc to desc, desc to asc) and nothing else changes |
| `Dashboard.Page.HandleFiltersChange` | src/pages/Index.tsx:151-165 | the reported filters are stored, the count equals the panel's active count, a notification is asked for exactly when it is positive (the filters differ from the default), and the displayed rows do not change |
| `Dashboard.ChangeFilter` | src/pages/Index.tsx:484 | a checkbox click with the panel wired to the page leaves the page holding exactly the value the panel stored, keeps the search term and sort direction, notifies exactly when some flag is on, and leaves the displayed rows unchanged |
| `Dashboard.ClearAllFilters` | src/components/ProctoringFilters.tsx:93-96 | "Clear all filters" returns both the panel and the page to the defaults, keeps the search term and sort direction, with no notification and no change to the displayed rows |
| `Text.Trim` | src/pages/Index.tsx:187 | `trim()`: never longer than the input, and empty or starting and ending with a non-whitespace character; `TrimEmptyIffBlank` relates it to whitespace-only strings |
| `Text.TrimStart` | src/pages/Index.tsx:187 | removes exactly the leading whitespace: the result is a suffix that is empty or starts with a non-whitespace character, and everything removed is whitespace |
| `Text.TrimEnd` | src/pages/Index.tsx:187 | removes exactly the trailing whitespace: the result is a prefix that is empty or ends with a non-whitespace character, and everything removed is whitespace |
| `Text.ToLower` | src/pages/Index.tsx:188-189 | `toLowerCase()`: same length, each A-Z letter moved to a-z and every other character kept |
| `Text.TrimEmptyIffBlank` | src/pages/Index.tsx:187 | `trim()` gives the empty string exactly for strings made only of whitespace |
| `Text.ToLowerIdempotent` | src/pages/Index.tsx:188-189 | lowercasing twice gives the same string as lowercasing once |
| `Text.Includes` | src/pages/Index.tsx:188-189 | `includes()`: holds only when the needle is no longer than the haystack; `IncludesIffOccurs` proves it is substring search |
| `Text.IncludesIffOccurs` | src/pages/Index.tsx:188-189 | `includes` holds exactly when the needle occurs at some position of the haystack |

## Left out

- Rendering is not modelled: JSX, popovers, tabs, tooltips, tables, badges, Tailwind classes and icons. This covers `ProctoringStatsCard`, `ViolationIcon` and `ProctoringSeverityBadge`, which only look up presentation. The "count shown only when above 1" and "details joined with ', '" formatting of the tooltip is also out.
- Toast delivery (`useToast`) is a foreign hook. Only the decision to notify is modelled, not the pluralised message text.
- React state scheduling and re-rendering are not modelled. Setters are plain field assignments, and `Page.Displayed` is the value recomputed from the current state.
- Violations.GroupViolations: the buckets are values in a map that is reassigned, not objects mutated through an alias. The result is the same, but aliasing is not modelled.
- Violations.Violation: `count` is an exact integer. JavaScript numbers are doubles, so sums above 2^53 would lose precision there.
- Strings are sequences of Unicode scalar values, not UTF-16 code units: a character outside the Basic Multilingual Plane is one `char` here but two code units in JavaScript, and lone surrogates cannot be represented. `trim`, `toLowerCase` and `includes` give the same results on well-formed strings.
- Text.ToLower: maps only the ASCII letters A-Z. JavaScript's `toLowerCase` also lowercases other Unicode letters and a few characters whose lowercase form has a different length.
- `handleFilterChange` accepts any string as the key. The model takes per-category key enumerations, which every checkbox passes.
- `handleFiltersChange` counts the flags with its own copy of the panel's reduce. The model uses `Filters.CountActive` for both, since the two expressions are the same.
- The sample candidates, the statistics literals, score and percentage strings, and the date splitting of the table are not modelled. One sample candidate serves as a test vector.
