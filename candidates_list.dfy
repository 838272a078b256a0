/**
 * The candidate list page: which candidates are shown (search text,
 * status filter, archived toggle), in which order (a column header cycles
 * through ascending, descending and unsorted), and archiving a row.
 */
module CandidatesList {
  import opened Wrappers
  import opened Text
  import opened Seqs
  import opened Candidates

  datatype SortField = FullName | VacancyTitle | Status | ScreeningScore | InterviewScore | AppliedAt

  /** The direction of the sort; `Unordered` is the page's `null`. */
  datatype SortOrder = Asc | Desc | Unordered

  /** The status drop-down: every status, or one of them. */
  datatype StatusFilter = All | Only(status: ListStatus)

  datatype SortState = SortState(field: SortField, order: SortOrder)

  /** The sort the page opens with: newest applications first. */
  const InitialSort := SortState(AppliedAt, Desc)

  // ---------------------------------------------------------------------
  // filtering

  predicate MatchesSearch(c: Candidate, query: string) {
    Includes(Lower(c.fullName), Lower(query)) || Includes(Lower(c.vacancyTitle), Lower(query))
  }

  predicate MatchesStatus(c: Candidate, filter: StatusFilter) {
    filter.All? || c.status == filter.status
  }

  predicate MatchesArchived(c: Candidate, showArchived: bool) {
    showArchived || !c.isArchived
  }

  /** The row filter of the page: search, status and archive visibility must all agree. */
  function Visible(c: Candidate, query: string, filter: StatusFilter, showArchived: bool): (b: bool)
    ensures b && !showArchived ==> !c.isArchived
    ensures b && filter.Only? ==> c.status == filter.status
    ensures query == [] && filter == All && (showArchived || !c.isArchived) ==> b
  {
    assert query == [] ==> Lower(query) == [];
    MatchesSearch(c, query) && MatchesStatus(c, filter) && MatchesArchived(c, showArchived)
  }

  function VisibleTest(query: string, filter: StatusFilter, showArchived: bool): Candidate -> bool {
    c => Visible(c, query, filter, showArchived)
  }

  /** The candidates the table shows, before sorting. */
  function FilteredCandidates(cs: seq<Candidate>, query: string, filter: StatusFilter, showArchived: bool): (r: seq<Candidate>)
    ensures |r| <= |cs|
    ensures forall c :: c in r ==> c in cs && Visible(c, query, filter, showArchived)
  {
    Filter(cs, VisibleTest(query, filter, showArchived))
  }

  /**
   * A candidate passes the filter exactly when the lower-cased query occurs
   * in the lower-cased name or vacancy title, the status filter is "all" or
   * equals its status, and archived rows are shown or it is not archived.
   */
  lemma VisibleIff(c: Candidate, query: string, filter: StatusFilter, showArchived: bool)
    ensures Visible(c, query, filter, showArchived) <==>
      && ((exists i :: OccursAt(Lower(c.fullName), Lower(query), i))
          || (exists i :: OccursAt(Lower(c.vacancyTitle), Lower(query), i)))
      && (filter == All || filter == Only(c.status))
      && (showArchived || !c.isArchived)
  {
    IncludesIff(Lower(c.fullName), Lower(query));
    IncludesIff(Lower(c.vacancyTitle), Lower(query));
  }

  /**
   * The filtered list is the subsequence of the candidates at exactly the
   * positions of the visible ones, in their original order.
   */
  lemma FilteredIsSubsequence(cs: seq<Candidate>, query: string, filter: StatusFilter, showArchived: bool)
    ensures var idx := KeptIndices(cs, VisibleTest(query, filter, showArchived));
            && SubsequenceAt(FilteredCandidates(cs, query, filter, showArchived), cs, idx)
            && forall i :: 0 <= i < |cs| ==> (i in idx <==> Visible(cs[i], query, filter, showArchived))
  {
    FilterIsSubsequence(cs, VisibleTest(query, filter, showArchived));
  }

  /** Every visible candidate is in the filtered list. */
  lemma VisibleIsShown(cs: seq<Candidate>, query: string, filter: StatusFilter, showArchived: bool, c: Candidate)
    requires c in cs && Visible(c, query, filter, showArchived)
    ensures c in FilteredCandidates(cs, query, filter, showArchived)
  {
    FilterKeeps(cs, VisibleTest(query, filter, showArchived), c);
  }

  /** With an empty search, every status and archived rows shown, nothing is filtered out. */
  lemma FilterOffShowsAll(cs: seq<Candidate>)
    ensures FilteredCandidates(cs, "", All, true) == cs
  {
    forall c | c in cs ensures Visible(c, "", All, true) {
      assert Lower("") == "";
      IncludesEmpty(Lower(c.fullName));
    }
    FilterAll(cs, VisibleTest("", All, true));
  }

  // ---------------------------------------------------------------------
  // comparing

  /** The rank of a status in the sort; the two rejections come last. */
  function StatusRank(s: ListStatus): (r: int)
    ensures 1 <= r <= 8
    ensures r >= 7 <==> s == RejectedScreening || s == RejectedInterview
  {
    match s
    case Pending => 1
    case Screening => 2
    case AwaitingInterview => 3
    case InterviewInProgress => 4
    case InterviewCompleted => 5
    case Approved => 6
    case RejectedScreening => 7
    case RejectedInterview => 8
  }

  /** No two statuses share a rank. */
  lemma StatusRankInjective(s: ListStatus, t: ListStatus)
    requires StatusRank(s) == StatusRank(t)
    ensures s == t
  {
  }

  /** A missing score sorts as -1. */
  function ScoreKey(score: Option<int>): (k: int)
    ensures score == None ==> k == -1
    ensures score.Some? ==> k == score.value
  {
    match score
    case None => -1
    case Some(n) => n
  }

  /** The integer a numeric column sorts by. */
  function NumericKey(field: SortField, c: Candidate): (k: int)
    requires field != FullName && field != VacancyTitle
    ensures field == Status ==> 1 <= k <= 8
    ensures field == ScreeningScore && c.screeningScore == None ==> k == -1
    ensures field == InterviewScore && c.interviewScore == None ==> k == -1
    ensures field == AppliedAt ==> k == c.appliedAt
  {
    match field
    case Status => StatusRank(c.status)
    case ScreeningScore => ScoreKey(c.screeningScore)
    case InterviewScore => ScoreKey(c.interviewScore)
    case AppliedAt => c.appliedAt
  }

  /**
   * The comparison of one column in ascending direction. The text columns
   * use `collate`, which stands for localeCompare with the Russian locale.
   */
  function FieldComparison(field: SortField, collate: (string, string) -> int, a: Candidate, b: Candidate): (r: int)
    ensures field == FullName ==> r == collate(a.fullName, b.fullName)
    ensures field == VacancyTitle ==> r == collate(a.vacancyTitle, b.vacancyTitle)
    ensures field != FullName && field != VacancyTitle ==>
      && (r < 0 <==> NumericKey(field, a) < NumericKey(field, b))
      && (r == 0 <==> NumericKey(field, a) == NumericKey(field, b))
  {
    match field
    case FullName => collate(a.fullName, b.fullName)
    case VacancyTitle => collate(a.vacancyTitle, b.vacancyTitle)
    case _ => NumericKey(field, a) - NumericKey(field, b)
  }

  /** The comparator handed to the sort. */
  function Compare(field: SortField, order: SortOrder, collate: (string, string) -> int, a: Candidate, b: Candidate): (r: int)
    ensures order == Asc ==> r == FieldComparison(field, collate, a, b)
    ensures order == Desc ==> r == -FieldComparison(field, collate, a, b)
    ensures order == Unordered ==> r == 0
  {
    if order == Unordered then 0
    else
      var comparison := FieldComparison(field, collate, a, b);
      if order == Asc then comparison else -comparison
  }

  function Comparator(field: SortField, order: SortOrder, collate: (string, string) -> int): (Candidate, Candidate) -> int {
    (a, b) => Compare(field, order, collate, a, b)
  }

  /** Without a direction every pair compares equal. */
  lemma CompareUnordered(field: SortField, collate: (string, string) -> int, a: Candidate, b: Candidate)
    ensures Compare(field, Unordered, collate, a, b) == 0
  {
  }

  /** Descending is exactly ascending negated, for every column. */
  lemma CompareDescNegatesAsc(field: SortField, collate: (string, string) -> int, a: Candidate, b: Candidate)
    ensures Compare(field, Desc, collate, a, b) == -Compare(field, Asc, collate, a, b)
  {
  }

  /** In ascending order a missing score comes before every non-negative score. */
  lemma MissingScoreFirst(field: SortField, collate: (string, string) -> int, a: Candidate, b: Candidate)
    requires field == ScreeningScore || field == InterviewScore
    requires field == ScreeningScore ==> a.screeningScore == None && b.screeningScore.Some? && b.screeningScore.value >= 0
    requires field == InterviewScore ==> a.interviewScore == None && b.interviewScore.Some? && b.interviewScore.value >= 0
    ensures Compare(field, Asc, collate, a, b) < 0
  {
  }

  /** In ascending order by status a rejected candidate comes after every other one. */
  lemma RejectedAfterOthers(collate: (string, string) -> int, a: Candidate, b: Candidate)
    requires a.status != RejectedScreening && a.status != RejectedInterview
    requires b.status == RejectedScreening || b.status == RejectedInterview
    ensures Compare(Status, Asc, collate, a, b) < 0
  {
  }

  // ---------------------------------------------------------------------
  // sorting

  /** The rows of the table: the filtered list sorted on a copy. */
  function SortedCandidates(filtered: seq<Candidate>, sort: SortState, collate: (string, string) -> int): (r: seq<Candidate>)
    ensures |r| == |filtered|
    ensures multiset(r) == multiset(filtered)
  {
    SortBy(filtered, Comparator(sort.field, sort.order, collate))
  }

  /** Without a direction the stable sort keeps the filtered order. */
  lemma UnorderedKeepsOrder(filtered: seq<Candidate>, field: SortField, collate: (string, string) -> int)
    ensures SortedCandidates(filtered, SortState(field, Unordered), collate) == filtered
  {
    SortByAllEqual(filtered, Comparator(field, Unordered, collate));
  }

  /** localeCompare's sign flips when its arguments are swapped. */
  ghost predicate SignAntisymmetric(collate: (string, string) -> int) {
    forall x, y :: collate(x, y) > 0 <==> collate(y, x) < 0
  }

  lemma ComparatorAntisymmetric(sort: SortState, collate: (string, string) -> int)
    requires SignAntisymmetric(collate)
    ensures forall a, b :: Compare(sort.field, sort.order, collate, a, b) > 0 <==> Compare(sort.field, sort.order, collate, b, a) < 0
    ensures Antisymmetric(Comparator(sort.field, sort.order, collate))
  {
    var cmp := Comparator(sort.field, sort.order, collate);
    forall a, b ensures cmp(a, b) > 0 <==> cmp(b, a) < 0 {
      if sort.field == FullName {
        assert collate(a.fullName, b.fullName) > 0 <==> collate(b.fullName, a.fullName) < 0;
        assert collate(b.fullName, a.fullName) > 0 <==> collate(a.fullName, b.fullName) < 0;
      } else if sort.field == VacancyTitle {
        assert collate(a.vacancyTitle, b.vacancyTitle) > 0 <==> collate(b.vacancyTitle, a.vacancyTitle) < 0;
        assert collate(b.vacancyTitle, a.vacancyTitle) > 0 <==> collate(a.vacancyTitle, b.vacancyTitle) < 0;
      }
    }
  }

  /** Sorted rows: each row compares at most equal to the next under the page's comparator. */
  lemma SortedIsOrdered(filtered: seq<Candidate>, sort: SortState, collate: (string, string) -> int)
    requires SignAntisymmetric(collate)
    ensures Ordered(SortedCandidates(filtered, sort, collate), Comparator(sort.field, sort.order, collate))
  {
    ComparatorAntisymmetric(sort, collate);
    SortByOrdered(filtered, Comparator(sort.field, sort.order, collate));
  }

  /**
   * For a numeric column the rows are sorted by its key: non-decreasing
   * in ascending order, non-increasing in descending order.
   */
  lemma SortedByNumericKey(filtered: seq<Candidate>, sort: SortState, collate: (string, string) -> int, i: int, j: int)
    requires sort.field != FullName && sort.field != VacancyTitle
    requires 0 <= i <= j < |filtered|
    ensures var r := SortedCandidates(filtered, sort, collate);
            && (sort.order == Asc ==> NumericKey(sort.field, r[i]) <= NumericKey(sort.field, r[j]))
            && (sort.order == Desc ==> NumericKey(sort.field, r[i]) >= NumericKey(sort.field, r[j]))
  {
    var r := SortedCandidates(filtered, sort, collate);
    var cmp := Comparator(sort.field, sort.order, collate);
    assert Antisymmetric(cmp) by {
      forall a, b | cmp(a, b) > 0 ensures cmp(b, a) <= 0 {}
    }
    SortByOrdered(filtered, cmp);
    if sort.order == Asc {
      var key := (c: Candidate) => NumericKey(sort.field, c);
      OrderedByKey(r, key, cmp, i, j);
    } else if sort.order == Desc {
      var key := (c: Candidate) => -NumericKey(sort.field, c);
      OrderedByKey(r, key, cmp, i, j);
    }
  }

  /** Sorted ascending by a score, the candidates without that score come first. */
  lemma MissingScoresSortFirst(filtered: seq<Candidate>, field: SortField, collate: (string, string) -> int, i: int, j: int)
    requires field == ScreeningScore || field == InterviewScore
    requires 0 <= i < j < |filtered|
    requires var r := SortedCandidates(filtered, SortState(field, Asc), collate);
             ScoreKey(if field == ScreeningScore then r[j].screeningScore else r[j].interviewScore) == -1
    ensures var r := SortedCandidates(filtered, SortState(field, Asc), collate);
            ScoreKey(if field == ScreeningScore then r[i].screeningScore else r[i].interviewScore) <= -1
  {
    SortedByNumericKey(filtered, SortState(field, Asc), collate, i, j);
  }

  /** Sorted ascending by status, no rejected candidate comes before one that is not rejected. */
  lemma RejectedSortLast(filtered: seq<Candidate>, collate: (string, string) -> int, i: int, j: int)
    requires 0 <= i < j < |filtered|
    requires var r := SortedCandidates(filtered, SortState(Status, Asc), collate);
             r[i].status == RejectedScreening || r[i].status == RejectedInterview
    ensures var r := SortedCandidates(filtered, SortState(Status, Asc), collate);
            r[j].status == RejectedScreening || r[j].status == RejectedInterview
  {
    SortedByNumericKey(filtered, SortState(Status, Asc), collate, i, j);
  }

  // ---------------------------------------------------------------------
  // the sort header

  /** A click on a column header, as a transition of (sortField, sortOrder). */
  function NextSortState(s: SortState, clicked: SortField): (r: SortState)
    ensures r.field == clicked || r.field == AppliedAt
    ensures r.order == Unordered ==> r.field == AppliedAt || r == s
    ensures r.order == Desc ==> r.field == s.field && s.order == Asc
  {
    if s.field == clicked then
      match s.order
      case Asc => SortState(s.field, Desc)
      case Desc => SortState(AppliedAt, Unordered)
      case Unordered => s
    else SortState(clicked, Asc)
  }

  /**
   * The header cycle: a new column sorts ascending, a second click
   * descending, a third resets to the application date without direction;
   * clicking the same column while unsorted changes nothing.
   */
  lemma SortTransitions(s: SortState, clicked: SortField)
    ensures s.field != clicked ==> NextSortState(s, clicked) == SortState(clicked, Asc)
    ensures s == SortState(clicked, Asc) ==> NextSortState(s, clicked) == SortState(clicked, Desc)
    ensures s == SortState(clicked, Desc) ==> NextSortState(s, clicked) == SortState(AppliedAt, Unordered)
    ensures s == SortState(clicked, Unordered) ==> NextSortState(s, clicked) == s
  {
  }

  /** Three clicks on a column other than the current one end in the reset state. */
  lemma ThreeClicksReset(s: SortState, clicked: SortField)
    requires s.field != clicked
    ensures NextSortState(NextSortState(NextSortState(s, clicked), clicked), clicked) == SortState(AppliedAt, Unordered)
  {
  }

  /**
   * From the opening state, the application-date header goes straight to
   * the reset state and then stays there: ascending by date is reachable
   * only by clicking another column first.
   */
  lemma AppliedAtStuckAfterReset()
    ensures NextSortState(InitialSort, AppliedAt) == SortState(AppliedAt, Unordered)
    ensures NextSortState(SortState(AppliedAt, Unordered), AppliedAt) == SortState(AppliedAt, Unordered)
  {
  }

  /** Only the application-date column is ever left without a direction. */
  ghost predicate SortStateOk(s: SortState) {
    s.order == Unordered ==> s.field == AppliedAt
  }

  lemma SortStateOkPreserved(s: SortState, clicked: SortField)
    requires SortStateOk(s)
    ensures SortStateOk(NextSortState(s, clicked))
    ensures SortStateOk(InitialSort)
  {
  }

  // ---------------------------------------------------------------------
  // archiving

  /** The candidates after the archive button of `id` was pressed on a row showing `currentlyArchived`. */
  function ArchiveToggled(cs: seq<Candidate>, id: string, currentlyArchived: bool): (r: seq<Candidate>)
    ensures |r| == |cs|
    ensures forall i :: 0 <= i < |cs| ==>
      if cs[i].id == id then r[i] == cs[i].(isArchived := !currentlyArchived) else r[i] == cs[i]
  {
    seq(|cs|, i requires 0 <= i < |cs| =>
      if cs[i].id == id then cs[i].(isArchived := !currentlyArchived) else cs[i])
  }

  /** Pressing the button again on the updated rows restores the list. */
  lemma ArchiveToggleTwice(cs: seq<Candidate>, id: string, currentlyArchived: bool)
    requires forall c :: c in cs && c.id == id ==> c.isArchived == currentlyArchived
    ensures ArchiveToggled(ArchiveToggled(cs, id, currentlyArchived), id, !currentlyArchived) == cs
  {
    var once := ArchiveToggled(cs, id, currentlyArchived);
    var twice := ArchiveToggled(once, id, !currentlyArchived);
    forall i | 0 <= i < |cs| ensures twice[i] == cs[i] {
      if cs[i].id == id {
        assert cs[i] in cs;
      }
    }
  }

  /** Archiving a candidate hides it while archived rows are not shown; nothing else changes visibility. */
  lemma ArchiveHides(cs: seq<Candidate>, id: string, query: string, filter: StatusFilter, c: Candidate)
    requires c in cs
    ensures forall x :: x in FilteredCandidates(ArchiveToggled(cs, id, false), query, filter, false) ==> x.id != id
    ensures c.id != id && Visible(c, query, filter, false) ==> c in FilteredCandidates(ArchiveToggled(cs, id, false), query, filter, false)
  {
    var r := ArchiveToggled(cs, id, false);
    forall x | x in FilteredCandidates(r, query, filter, false) ensures x.id != id {
      var i :| 0 <= i < |r| && r[i] == x;
    }
    if c.id != id && Visible(c, query, filter, false) {
      var i :| 0 <= i < |cs| && cs[i] == c;
      assert r[i] == c;
      VisibleIsShown(r, query, filter, false, c);
    }
  }

  // ---------------------------------------------------------------------
  // the page state

  class CandidatesListPage {
    var searchQuery: string
    var statusFilter: StatusFilter
    var showArchived: bool
    var candidates: seq<Candidate>
    var sortField: SortField
    var sortOrder: SortOrder

    /** The page as it opens: no search, every status, archived rows hidden, newest first. */
    constructor (initial: seq<Candidate>)
      ensures searchQuery == "" && statusFilter == All && !showArchived
      ensures candidates == initial
      ensures SortState(sortField, sortOrder) == InitialSort
    {
      searchQuery := "";
      statusFilter := All;
      showArchived := false;
      candidates := initial;
      sortField := AppliedAt;
      sortOrder := Desc;
    }

    /** The rows the table shows, in order. */
    function Rows(collate: (string, string) -> int): (r: seq<Candidate>)
      reads this
      ensures multiset(r) == multiset(FilteredCandidates(candidates, searchQuery, statusFilter, showArchived))
      ensures sortOrder == Unordered ==> r == FilteredCandidates(candidates, searchQuery, statusFilter, showArchived)
    {
      var filtered := FilteredCandidates(candidates, searchQuery, statusFilter, showArchived);
      UnorderedKeepsOrder(filtered, sortField, collate);
      SortedCandidates(filtered, SortState(sortField, sortOrder), collate)
    }

    /** The count under the table is the number of filtered candidates. */
    function ShownCount(collate: (string, string) -> int): (n: nat)
      reads this
      ensures n == |FilteredCandidates(candidates, searchQuery, statusFilter, showArchived)|
    {
      |Rows(collate)|
    }

    method HandleSearchChange(query: string)
      modifies this`searchQuery
      ensures searchQuery == query
    {
      searchQuery := query;
    }

    method HandleStatusFilterChange(filter: StatusFilter)
      modifies this`statusFilter
      ensures statusFilter == filter
    {
      statusFilter := filter;
    }

    method HandleShowArchivedChange(checked: bool)
      modifies this`showArchived
      ensures showArchived == checked
    {
      showArchived := checked;
    }

    /** A click on the header of `field`; the candidates themselves are untouched. */
    method HandleSort(field: SortField)
      modifies this`sortField, this`sortOrder
      ensures SortState(sortField, sortOrder) == NextSortState(SortState(old(sortField), old(sortOrder)), field)
    {
      if sortField == field {
        if sortOrder == Asc {
          sortOrder := Desc;
        } else if sortOrder == Desc {
          sortOrder := Unordered;
          sortField := AppliedAt;
        }
      } else {
        sortField := field;
        sortOrder := Asc;
      }
    }

    /** The archive button of a row: every candidate with that id gets the opposite of the shown flag. */
    method HandleArchiveToggle(id: string, currentlyArchived: bool)
      modifies this`candidates
      ensures candidates == ArchiveToggled(old(candidates), id, currentlyArchived)
    {
      candidates := ArchiveToggled(candidates, id, currentlyArchived);
    }
  }
}
