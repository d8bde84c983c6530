/**
 * The candidate list page (Index): each candidate is annotated with its
 * highest violation severity and its number of violation records, the list
 * is narrowed by a case-insensitive search over name and email, the score
 * column's sort direction toggles, and filter changes reported by the filter
 * panel are stored and announced. The stored filters never narrow the list.
 */
module Dashboard {
  import Text
  import Violations
  import Filters

  datatype Candidate = Candidate(
    id: int,
    name: string,
    email: string,
    score: string,
    percentage: real,
    proficiency: string,
    status: string,
    completedDate: string,
    appearedDate: string,
    violations: seq<Violations.Violation>,
    candidateStatus: string)

  /** `{ ...candidate, severityLevel, violationCount }` */
  datatype RankedCandidate = RankedCandidate(
    candidate: Candidate,
    severityLevel: Violations.Severity,
    violationCount: nat)

  // ---------------------------------------------------------------------
  // Severity derivation

  /** The `reduce` over a candidate's violations that starts at 'low' and takes
      a record's severity only when it ranks strictly higher: the maximum
      severity, or 'low' for no violations. */
  function MaxSeverity(vs: seq<Violations.Violation>): (r: Violations.Severity)
    ensures vs == [] ==> r == Violations.Low
    ensures vs != [] ==> exists i :: 0 <= i < |vs| && vs[i].severity == r
    ensures forall i :: 0 <= i < |vs| ==> Violations.Rank(vs[i].severity) <= Violations.Rank(r)
  {
    if vs == [] then Violations.Low
    else
      var m := MaxSeverity(vs[..|vs| - 1]);
      var v := vs[|vs| - 1];
      if Violations.Rank(v.severity) > Violations.Rank(m) then v.severity else m
  }

  /** The candidate's badge agrees with its violation strip: its severity is
      the highest severity of one of the type groups, and no group's highest
      severity ranks above it. */
  lemma MaxSeverityIsHighestGroup(vs: seq<Violations.Violation>)
    ensures forall t, s :: t in Violations.TypesOf(vs) && Violations.IsHighestOf(vs, t, s) ==>
              Violations.Rank(s) <= Violations.Rank(MaxSeverity(vs))
    ensures vs != [] ==> exists t :: t in Violations.TypesOf(vs) && Violations.IsHighestOf(vs, t, MaxSeverity(vs))
  {
    if vs != [] {
      var i :| 0 <= i < |vs| && vs[i].severity == MaxSeverity(vs);
      assert Violations.IsHighestOf(vs, vs[i].vtype, MaxSeverity(vs));
    }
  }

  /** `candidatesWithSeverity`: one annotated entry per candidate, in the same
      order, each carrying the candidate unchanged, the number of its
      violation records (not the sum of their counts) and its maximum
      severity. */
  function WithSeverity(cs: seq<Candidate>): (r: seq<RankedCandidate>)
    ensures |r| == |cs|
    ensures forall i :: 0 <= i < |cs| ==>
              && r[i].candidate == cs[i]
              && r[i].violationCount == |cs[i].violations|
              && r[i].severityLevel == MaxSeverity(cs[i].violations)
  {
    seq(|cs|, i requires 0 <= i < |cs| =>
      RankedCandidate(cs[i], MaxSeverity(cs[i].violations), |cs[i].violations|))
  }

  // ---------------------------------------------------------------------
  // Search

  /** The search predicate: a blank term (nothing left after `trim`) keeps
      everyone; otherwise the lowercased, untrimmed term must occur in the
      lowercased name or the lowercased email. */
  predicate SearchMatch(c: Candidate, search: string)
  {
    || Text.Trim(search) == ""
    || Text.Includes(Text.ToLower(c.name), Text.ToLower(search))
    || Text.Includes(Text.ToLower(c.email), Text.ToLower(search))
  }

  /** The search ignores letter case in the term. */
  lemma SearchIgnoresCase(c: Candidate, search: string)
    ensures SearchMatch(c, search) <==> SearchMatch(c, Text.ToLower(search))
  {
    Text.ToLowerIdempotent(search);
    Text.ToLowerKeepsBlank(search);
    Text.TrimEmptyIffBlank(search);
    Text.TrimEmptyIffBlank(Text.ToLower(search));
  }

  /** `Array.prototype.filter`: the entries satisfying `p`, in order; every
      occurrence of a matching entry is kept and none of the others. */
  function Filter<T(==,!new)>(s: seq<T>, p: T -> bool): (r: seq<T>)
    ensures |r| <= |s|
    ensures forall x :: x in r <==> x in s && p(x)
    ensures forall x :: multiset(r)[x] == if p(x) then multiset(s)[x] else 0
  {
    if s == [] then []
    else
      assert s == [s[0]] + s[1..];
      (if p(s[0]) then [s[0]] else []) + Filter(s[1..], p)
  }

  /** `r` is `s` with some entries dropped and the rest in their order. */
  ghost predicate SubsequenceOf<T>(r: seq<T>, s: seq<T>)
    decreases |s|
  {
    r == [] || (s != [] && ((r[0] == s[0] && SubsequenceOf(r[1..], s[1..])) || SubsequenceOf(r, s[1..])))
  }

  /** Filtering keeps the original order. */
  lemma {:induction false} FilterIsSubsequence<T(!new)>(s: seq<T>, p: T -> bool)
    ensures SubsequenceOf(Filter(s, p), s)
  {
    if s != [] {
      FilterIsSubsequence(s[1..], p);
      if p(s[0]) {
        assert Filter(s, p)[1..] == Filter(s[1..], p);
      } else {
        assert Filter(s, p) == Filter(s[1..], p);
      }
    }
  }

  /** Filtering with a predicate every entry satisfies changes nothing. */
  lemma {:induction false} FilterKeepsAll<T(!new)>(s: seq<T>, p: T -> bool)
    requires forall x :: x in s ==> p(x)
    ensures Filter(s, p) == s
  {
    if s != [] {
      assert p(s[0]);
      assert forall x :: x in s[1..] ==> x in s;
      FilterKeepsAll(s[1..], p);
      assert [s[0]] + s[1..] == s;
    }
  }

  /** `filteredCandidates`: the annotated list narrowed by the search term
      alone; an entry is kept exactly when it matches. */
  function FilterCandidates(cs: seq<RankedCandidate>, search: string): (r: seq<RankedCandidate>)
    ensures forall x :: x in r <==> x in cs && SearchMatch(x.candidate, search)
    ensures forall x :: multiset(r)[x] == if SearchMatch(x.candidate, search) then multiset(cs)[x] else 0
  {
    Filter(cs, (x: RankedCandidate) => SearchMatch(x.candidate, search))
  }

  /** The filtered list is the input with non-matching entries dropped, in
      the original order. */
  lemma FilterCandidatesKeepsOrder(cs: seq<RankedCandidate>, search: string)
    ensures SubsequenceOf(FilterCandidates(cs, search), cs)
  {
    FilterIsSubsequence(cs, (x: RankedCandidate) => SearchMatch(x.candidate, search));
  }

  /** An empty or whitespace-only term keeps every candidate, in order. */
  lemma BlankSearchKeepsAll(cs: seq<RankedCandidate>, search: string)
    requires Text.Blank(search)
    ensures FilterCandidates(cs, search) == cs
  {
    Text.TrimEmptyIffBlank(search);
    FilterKeepsAll(cs, (x: RankedCandidate) => SearchMatch(x.candidate, search));
  }

  /** A non-blank term keeps a candidate exactly when the lowercased term
      occurs at some position of the lowercased name or email. */
  lemma SearchMatchIffOccurs(c: Candidate, search: string)
    requires !Text.Blank(search)
    ensures SearchMatch(c, search) <==>
              (exists i: nat :: Text.OccursAt(Text.ToLower(c.name), Text.ToLower(search), i))
              || (exists i: nat :: Text.OccursAt(Text.ToLower(c.email), Text.ToLower(search), i))
  {
    Text.TrimEmptyIffBlank(search);
    Text.IncludesIffOccurs(Text.ToLower(c.name), Text.ToLower(search));
    Text.IncludesIffOccurs(Text.ToLower(c.email), Text.ToLower(search));
  }

  /** The first sample candidate is found by the term "JANSY". */
  lemma UpperCaseTermFindsSampleCandidate()
    ensures SearchMatch(Candidate(1, "Jansy Alexander", "stamilvelue@guidehouse.com", "218.54/400", 52.0,
                                  "Proficient", "Completed", "17-Feb-2025, 05:17 PM", "17-Feb-2025, 04:50 PM",
                                  [Violations.Violation(Violations.Window, 1, Violations.Medium, Violations.Some("2 minutes")),
                                   Violations.Violation(Violations.Image, 1, Violations.Medium, Violations.Some("4 violations")),
                                   Violations.Violation(Violations.Headphones, 1, Violations.Medium, Violations.None)],
                                  "Not Assigned"), "JANSY")
  {
    var name, term := Text.ToLower("Jansy Alexander"), Text.ToLower("JANSY");
    assert name[..5] == "jansy" == term;
  }

  // ---------------------------------------------------------------------
  // Page state

  datatype SortDirection = Asc | Desc

  /** `sortDirection === 'asc' ? 'desc' : 'asc'` */
  function Toggled(d: SortDirection): (r: SortDirection)
    ensures r != d
  {
    if d == Asc then Desc else Asc
  }

  /** Toggling twice restores the direction. */
  lemma ToggleTwice(d: SortDirection)
    ensures Toggled(Toggled(d)) == d
  {
  }

  /** The page component's state. */
  class Page {
    const candidates: seq<Candidate>
    var search: string
    var sortDirection: SortDirection
    var activeFilters: Filters.ViolationFilters

    /** The initial state: empty search, descending, no filters. */
    constructor (candidates: seq<Candidate>)
      ensures this.candidates == candidates
      ensures search == "" && sortDirection == Desc && activeFilters == Filters.DefaultFilters()
    {
      this.candidates := candidates;
      search := "";
      sortDirection := Desc;
      activeFilters := Filters.DefaultFilters();
    }

    /** The rows of the candidate table. */
    function Displayed(): (r: seq<RankedCandidate>)
      reads this
      ensures |r| <= |candidates|
      ensures forall x :: x in r ==> SearchMatch(x.candidate, search)
    {
      FilterCandidates(WithSeverity(candidates), search)
    }

    /** `setSearch` from the search box. */
    method SetSearch(s: string)
      modifies this
      ensures search == s
      ensures sortDirection == old(sortDirection) && activeFilters == old(activeFilters)
    {
      search := s;
    }

    /** `toggleSortDirection` */
    method ToggleSortDirection()
      modifies this
      ensures sortDirection == Toggled(old(sortDirection))
      ensures search == old(search) && activeFilters == old(activeFilters)
    {
      sortDirection := Toggled(sortDirection);
    }

    /** `handleFiltersChange`: stores the reported filters, counts the active
        flags exactly as the panel does, and asks for a notification exactly
        when that count is positive. The displayed rows do not change. */
    method HandleFiltersChange(filters: Filters.ViolationFilters) returns (activeCount: nat, notify: bool)
      modifies this
      ensures activeFilters == filters
      ensures search == old(search) && sortDirection == old(sortDirection)
      ensures activeCount == Filters.CountActive(filters)
      ensures notify <==> filters != Filters.DefaultFilters()
      ensures Displayed() == old(Displayed())
    {
      activeFilters := filters;
      activeCount := Filters.CountActive(filters);
      notify := activeCount > 0;
    }
  }

  /** One checkbox click with the panel wired to the page
      (`onFiltersChange={handleFiltersChange}`): the page ends up holding the
      very value the panel stored. */
  method ChangeFilter(panel: Filters.FilterPanel, page: Page, s: Filters.Selector, checked: bool)
    returns (notify: bool)
    modifies panel, page
    ensures panel.filters == Filters.SetFlag(old(panel.filters), s, checked)
    ensures page.activeFilters == panel.filters
    ensures page.search == old(page.search) && page.sortDirection == old(page.sortDirection)
    ensures notify <==> panel.filters != Filters.DefaultFilters()
    ensures page.Displayed() == old(page.Displayed())
  {
    var reported := panel.HandleFilterChange(s, checked);
    var _, n := page.HandleFiltersChange(reported);
    notify := n;
  }

  /** "Clear all filters" with the panel wired to the page: both sides return
      to the defaults and no notification is asked for. */
  method ClearAllFilters(panel: Filters.FilterPanel, page: Page) returns (notify: bool)
    modifies panel, page
    ensures panel.filters == Filters.DefaultFilters() && page.activeFilters == Filters.DefaultFilters()
    ensures page.search == old(page.search) && page.sortDirection == old(page.sortDirection)
    ensures !notify
    ensures page.Displayed() == old(page.Displayed())
  {
    var reported := panel.ClearFilters();
    var _, n := page.HandleFiltersChange(reported);
    notify := n;
  }
}
