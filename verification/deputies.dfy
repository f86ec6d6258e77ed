/**
 * The deputy list view: the per-user session state (block filter, search term,
 * page number, selected deputy) and how its callbacks and buttons change it,
 * together with the filtering, ordering and pagination that decide which
 * analysis rows are shown on a page. Rendering is not modelled.
 */
module DeputiesView {
  import opened Records
  import opened Text
  import Aggregation

  /** Number of deputies shown per page. */
  const ITEMS_PER_PAGE: nat := 20
  /** The block-selector choice that applies no block filter. */
  const ALL_BLOCKS: string := "All Blocks"

  /** One row of the analysis table: its (block, deputy) key and the deputy's statistics. */
  datatype DeputyRow = DeputyRow(block: string, deputy: string, stats: Aggregation.DeputyStats)

  function Loyalty(r: DeputyRow): real {
    r.stats.averageLoyalty
  }

  // ---------------------------------------------------------------------------
  // Filters

  /** The rows satisfying `keep`, in their original order. */
  function Keep(rows: seq<DeputyRow>, keep: DeputyRow -> bool): (r: seq<DeputyRow>)
    ensures forall x :: multiset(r)[x] == if keep(x) then multiset(rows)[x] else 0
    ensures forall x | x in r :: keep(x)
  {
    if rows == [] then []
    else
      assert rows == [rows[0]] + rows[1..];
      (if keep(rows[0]) then [rows[0]] else []) + Keep(rows[1..], keep)
  }

  /** The search term matches a deputy name when it occurs in it, ignoring case. */
  predicate NameMatches(name: string, term: string) {
    Contains(Lower(name), Lower(term))
  }

  /** 'All Blocks' keeps every row; any other choice keeps the rows of exactly that block. */
  function FilterByBlock(rows: seq<DeputyRow>, choice: string): (r: seq<DeputyRow>)
    ensures forall x :: multiset(r)[x] == if choice == ALL_BLOCKS || x.block == choice then multiset(rows)[x] else 0
  {
    if choice != ALL_BLOCKS then Keep(rows, (x: DeputyRow) => x.block == choice) else rows
  }

  /** An empty term keeps every row; any other keeps the rows whose deputy name contains it, ignoring case. */
  function FilterBySearch(rows: seq<DeputyRow>, term: string): (r: seq<DeputyRow>)
    ensures forall x :: multiset(r)[x] == if term == "" || NameMatches(x.deputy, term) then multiset(rows)[x] else 0
  {
    if term != "" then Keep(rows, (x: DeputyRow) => NameMatches(x.deputy, term)) else rows
  }

  /** The block filter first, then the name search. */
  function Filtered(rows: seq<DeputyRow>, choice: string, term: string): seq<DeputyRow> {
    FilterBySearch(FilterByBlock(rows, choice), term)
  }

  /** Case does not matter on either side of the search. */
  lemma NameMatchesIgnoresCase(name: string, term: string)
    ensures NameMatches(Lower(name), term) == NameMatches(name, term)
    ensures NameMatches(name, Lower(term)) == NameMatches(name, term)
  {
    LowerIdempotent(name);
    LowerIdempotent(term);
  }

  /** The empty term matches every name, so skipping the search on an empty term changes nothing. */
  lemma EmptyTermMatchesAll(rows: seq<DeputyRow>)
    ensures Keep(rows, (x: DeputyRow) => NameMatches(x.deputy, "")) == rows
  {
    forall x: DeputyRow ensures NameMatches(x.deputy, "") {
      ContainsEmpty(Lower(x.deputy));
    }
    KeepAll(rows, (x: DeputyRow) => NameMatches(x.deputy, ""));
  }

  lemma {:induction false} KeepAll(rows: seq<DeputyRow>, keep: DeputyRow -> bool)
    requires forall x | x in rows :: keep(x)
    ensures Keep(rows, keep) == rows
  {
    if rows != [] {
      KeepAll(rows[1..], keep);
    }
  }

  /** A row survives both filters exactly when its block is selected and its name matches. */
  lemma FilteredMembers(rows: seq<DeputyRow>, choice: string, term: string, x: DeputyRow)
    ensures x in Filtered(rows, choice, term) <==>
      x in rows && (choice == ALL_BLOCKS || x.block == choice) && (term == "" || NameMatches(x.deputy, term))
  {
    var byBlock := FilterByBlock(rows, choice);
    assert x in byBlock <==> multiset(byBlock)[x] > 0;
    assert x in rows <==> multiset(rows)[x] > 0;
    assert x in Filtered(rows, choice, term) <==> multiset(Filtered(rows, choice, term))[x] > 0;
  }

  // ---------------------------------------------------------------------------
  // Ordering by loyalty

  /** Highest average loyalty first. */
  predicate SortedByLoyalty(s: seq<DeputyRow>) {
    forall i, j :: 0 <= i < j < |s| ==> Loyalty(s[i]) >= Loyalty(s[j])
  }

  function InsertByLoyalty(x: DeputyRow, s: seq<DeputyRow>): (r: seq<DeputyRow>)
    requires SortedByLoyalty(s)
    ensures SortedByLoyalty(r)
    ensures multiset(r) == multiset(s) + multiset{x}
  {
    if s == [] || Loyalty(x) >= Loyalty(s[0]) then [x] + s
    else
      var rest := InsertByLoyalty(x, s[1..]);
      InsertBehindHead(x, s, rest);
      [s[0]] + rest
  }

  /** Putting the head of a sorted list before the insertion into its tail keeps it sorted. */
  lemma InsertBehindHead(x: DeputyRow, s: seq<DeputyRow>, rest: seq<DeputyRow>)
    requires s != [] && SortedByLoyalty(s) && Loyalty(x) < Loyalty(s[0])
    requires SortedByLoyalty(rest) && multiset(rest) == multiset(s[1..]) + multiset{x}
    ensures SortedByLoyalty([s[0]] + rest)
    ensures multiset([s[0]] + rest) == multiset(s) + multiset{x}
  {
    assert s == [s[0]] + s[1..];
    forall y | y in rest ensures Loyalty(s[0]) >= Loyalty(y) {
      assert y in multiset(rest);
      if y != x {
        assert y in multiset(s[1..]);
        assert y in s[1..];
      }
    }
    var r := [s[0]] + rest;
    forall i, j | 0 <= i < j < |r| ensures Loyalty(r[i]) >= Loyalty(r[j]) {
      if i == 0 {
        assert r[j] == rest[j - 1];
        assert r[j] in rest;
      } else {
        assert r[i] == rest[i - 1] && r[j] == rest[j - 1];
      }
    }
  }

  /** The rows in descending order of average loyalty. */
  function SortByLoyalty(s: seq<DeputyRow>): (r: seq<DeputyRow>)
    ensures SortedByLoyalty(r)
    ensures multiset(r) == multiset(s)
  {
    if s == [] then []
    else
      assert s == [s[0]] + s[1..];
      InsertByLoyalty(s[0], SortByLoyalty(s[1..]))
  }

  // ---------------------------------------------------------------------------
  // Block selector options

  function Blocks(rows: seq<DeputyRow>): set<string> {
    set x | x in rows :: x.block
  }

  predicate StrictlySorted(s: seq<string>) {
    forall i, j :: 0 <= i < j < |s| ==> Less(s[i], s[j])
  }

  /** Adds `b` to a strictly sorted list of distinct names, unless it is already there. */
  function InsertBlock(b: string, s: seq<string>): (r: seq<string>)
    requires StrictlySorted(s)
    ensures StrictlySorted(r)
    ensures forall y :: y in r <==> y in s || y == b
  {
    if s == [] then [b]
    else if b == s[0] then s
    else if Less(b, s[0]) then
      assert forall j | 0 < j < |s| :: Less(b, s[j]) by {
        forall j | 0 < j < |s| ensures Less(b, s[j]) {
          LessTransitive(b, s[0], s[j]);
        }
      }
      [b] + s
    else
      LessTotal(b, s[0]);
      assert s == [s[0]] + s[1..];
      var rest := InsertBlock(b, s[1..]);
      assert forall y | y in rest :: Less(s[0], y);
      [s[0]] + rest
  }

  /** The distinct blocks of `rows`, each once, in ascending order. */
  function SortedBlocks(rows: seq<DeputyRow>): (r: seq<string>)
    ensures StrictlySorted(r)
    ensures forall b :: b in r <==> b in Blocks(rows)
  {
    if rows == [] then []
    else
      assert rows == [rows[0]] + rows[1..];
      InsertBlock(rows[0].block, SortedBlocks(rows[1..]))
  }

  /** The selector's choices: 'All Blocks', then every block of the table once, in ascending order. */
  function BlockOptions(rows: seq<DeputyRow>): (opts: seq<string>)
    ensures |opts| >= 1 && opts[0] == ALL_BLOCKS
    ensures StrictlySorted(opts[1..]) && NoDup(opts[1..])
    ensures forall b :: b in opts[1..] <==> b in Blocks(rows)
  {
    var blocks := SortedBlocks(rows);
    StrictlySortedNoDup(blocks);
    assert ([ALL_BLOCKS] + blocks)[1..] == blocks;
    [ALL_BLOCKS] + blocks
  }

  lemma StrictlySortedNoDup(s: seq<string>)
    requires StrictlySorted(s)
    ensures NoDup(s)
  {
    forall i, j | 0 <= i < j < |s| ensures s[i] != s[j] {
      if s[i] == s[j] {
        LessIrreflexive(s[i]);
      }
    }
  }

  // ---------------------------------------------------------------------------
  // Pagination

  /** Number of pages: the ceiling of `n / ITEMS_PER_PAGE`. */
  function TotalPages(n: nat): (p: nat)
    ensures p * ITEMS_PER_PAGE >= n
    ensures p == 0 || (p - 1) * ITEMS_PER_PAGE < n
    ensures p == 0 <==> n == 0
  {
    n / ITEMS_PER_PAGE + (if n % ITEMS_PER_PAGE > 0 then 1 else 0)
  }

  /** The items shown on page `page` (counted from 1), clipped to the list. */
  function PageSlice<T>(items: seq<T>, page: int): (r: seq<T>)
    requires page >= 1
    ensures |r| <= ITEMS_PER_PAGE
    ensures forall i :: 0 <= i < |r| ==>
      (page - 1) * ITEMS_PER_PAGE + i < |items| && r[i] == items[(page - 1) * ITEMS_PER_PAGE + i]
    ensures r != [] <==> page <= TotalPages(|items|)
    ensures page < TotalPages(|items|) ==> |r| == ITEMS_PER_PAGE
  {
    var start := (page - 1) * ITEMS_PER_PAGE;
    var end := start + ITEMS_PER_PAGE;
    if start >= |items| then []
    else items[start..if end <= |items| then end else |items|]
  }

  /** Pages 1 to `k`, one after the other. */
  function Pages<T>(items: seq<T>, k: nat): seq<T> {
    if k == 0 then [] else Pages(items, k - 1) + PageSlice(items, k)
  }

  /** The first `k` pages are the first `k * ITEMS_PER_PAGE` items, clipped to the list. */
  lemma {:induction false} PagesArePrefix<T>(items: seq<T>, k: nat)
    ensures Pages(items, k) == items[..if k * ITEMS_PER_PAGE <= |items| then k * ITEMS_PER_PAGE else |items|]
  {
    if k > 0 {
      PagesArePrefix(items, k - 1);
    }
  }

  /** All pages together show the whole list, in order, each item once. */
  lemma PagesCoverList<T>(items: seq<T>)
    ensures Pages(items, TotalPages(|items|)) == items
  {
    PagesArePrefix(items, TotalPages(|items|));
  }

  /** Item `i` appears on page `i / ITEMS_PER_PAGE + 1`, at position `i % ITEMS_PER_PAGE`. */
  lemma PageOfItem<T>(items: seq<T>, i: nat)
    requires i < |items|
    ensures var page := i / ITEMS_PER_PAGE + 1;
      page <= TotalPages(|items|) && i % ITEMS_PER_PAGE < |PageSlice(items, page)| &&
      PageSlice(items, page)[i % ITEMS_PER_PAGE] == items[i]
  {
  }

  /** What the list shows: the filtered rows, most loyal first, cut to the current page. */
  function ShownRows(rows: seq<DeputyRow>, choice: string, term: string, page: int): seq<DeputyRow>
    requires page >= 1
  {
    PageSlice(SortByLoyalty(Filtered(rows, choice, term)), page)
  }

  /** A page holds items of the list only, in the list's order. */
  lemma PageSliceOrdered(items: seq<DeputyRow>, page: int)
    requires page >= 1 && SortedByLoyalty(items)
    ensures SortedByLoyalty(PageSlice(items, page))
    ensures forall x | x in PageSlice(items, page) :: x in items
  {
    var r := PageSlice(items, page);
    forall x | x in r ensures x in items {
      var i :| 0 <= i < |r| && r[i] == x;
      assert items[(page - 1) * ITEMS_PER_PAGE + i] == x;
    }
  }

  /** A shown row is a row of the table that passes both filters, and at most a page of them is shown. */
  lemma ShownRowsQualify(rows: seq<DeputyRow>, choice: string, term: string, page: int)
    requires page >= 1
    ensures |ShownRows(rows, choice, term, page)| <= ITEMS_PER_PAGE
    ensures SortedByLoyalty(ShownRows(rows, choice, term, page))
    ensures forall x | x in ShownRows(rows, choice, term, page) ::
      x in rows && (choice == ALL_BLOCKS || x.block == choice) && (term == "" || NameMatches(x.deputy, term))
  {
    var filtered := Filtered(rows, choice, term);
    var sorted := SortByLoyalty(filtered);
    PageSliceOrdered(sorted, page);
    forall x | x in PageSlice(sorted, page)
      ensures x in rows && (choice == ALL_BLOCKS || x.block == choice) && (term == "" || NameMatches(x.deputy, term))
    {
      assert x in multiset(sorted);
      assert x in filtered;
      FilteredMembers(rows, choice, term, x);
    }
  }

  // ---------------------------------------------------------------------------
  // Session state

  /**
   * The view's session variables; `None` means the variable is not set yet.
   * `selectedDeputy` holds `Some(None)` once set to no deputy.
   */
  datatype Session = Session(
    blockFilter: Option<string>,
    searchTerm: Option<string>,
    pageNumber: Option<int>,
    selectedDeputy: Option<Option<string>>)

  /** Sets each missing variable to its default and leaves the others as they are. */
  function Initialize(s: Session): Session {
    Session(
      Some(s.blockFilter.GetOr(ALL_BLOCKS)),
      Some(s.searchTerm.GetOr("")),
      Some(s.pageNumber.GetOr(1)),
      Some(s.selectedDeputy.GetOr(None)))
  }

  function ResetPagination(s: Session): Session {
    s.(pageNumber := Some(1))
  }

  /** The block selector's change callback fires only when the choice differs. */
  function SelectBlock(s: Session, choice: string): Session {
    if s.blockFilter == Some(choice) then s else ResetPagination(s.(blockFilter := Some(choice)))
  }

  /** The search box's change callback fires only when the text differs. */
  function EnterSearchTerm(s: Session, term: string): Session {
    if s.searchTerm == Some(term) then s else ResetPagination(s.(searchTerm := Some(term)))
  }

  /** The previous-page button exists only with more than one page and past page 1. */
  function Previous(s: Session, totalPages: int): Session
    requires s.pageNumber.Some?
  {
    var p := s.pageNumber.value;
    if totalPages > 1 && p > 1 then s.(pageNumber := Some(p - 1)) else s
  }

  /** The next-page button exists only with more than one page and before the last. */
  function Next(s: Session, totalPages: int): Session
    requires s.pageNumber.Some?
  {
    var p := s.pageNumber.value;
    if totalPages > 1 && p < totalPages then s.(pageNumber := Some(p + 1)) else s
  }

  function ViewProfile(s: Session, deputy: string): Session {
    s.(selectedDeputy := Some(Some(deputy)))
  }

  /** The page number, once set, is at least 1. */
  predicate PageValid(s: Session) {
    s.pageNumber.Some? ==> s.pageNumber.value >= 1
  }

  /** Initializing sets every variable, fills only the missing ones, and a second call changes nothing. */
  lemma InitializeFillsMissing(s: Session)
    ensures var t := Initialize(s);
      t.blockFilter.Some? && t.searchTerm.Some? && t.pageNumber.Some? && t.selectedDeputy.Some? &&
      (s.blockFilter.Some? ==> t.blockFilter == s.blockFilter) &&
      (s.searchTerm.Some? ==> t.searchTerm == s.searchTerm) &&
      (s.pageNumber.Some? ==> t.pageNumber == s.pageNumber) &&
      (s.selectedDeputy.Some? ==> t.selectedDeputy == s.selectedDeputy) &&
      Initialize(t) == t
  {
  }

  /** A fresh session starts on page 1 of all blocks, with no search and no deputy selected. */
  lemma InitialSession()
    ensures Initialize(Session(None, None, None, None)) == Session(Some(ALL_BLOCKS), Some(""), Some(1), Some(None))
  {
  }

  /** Choosing a different block or search term returns to page 1; choosing the same one changes nothing. */
  lemma FilterChangeResetsPage(s: Session, choice: string, term: string)
    ensures var t := SelectBlock(s, choice);
      t.blockFilter == Some(choice) && t.searchTerm == s.searchTerm && t.selectedDeputy == s.selectedDeputy &&
      t.pageNumber == (if s.blockFilter == Some(choice) then s.pageNumber else Some(1))
    ensures var t := EnterSearchTerm(s, term);
      t.searchTerm == Some(term) && t.blockFilter == s.blockFilter && t.selectedDeputy == s.selectedDeputy &&
      t.pageNumber == (if s.searchTerm == Some(term) then s.pageNumber else Some(1))
  {
  }

  /** Navigation keeps a page within 1..totalPages and moves it by at most one. */
  lemma NavigationStaysInRange(s: Session, totalPages: int)
    requires s.pageNumber.Some? && 1 <= s.pageNumber.value <= totalPages
    ensures var p := Previous(s, totalPages).pageNumber;
      p.Some? && 1 <= p.value <= totalPages &&
      p.value == (if s.pageNumber.value > 1 then s.pageNumber.value - 1 else s.pageNumber.value)
    ensures var p := Next(s, totalPages).pageNumber;
      p.Some? && 1 <= p.value <= totalPages &&
      p.value == (if s.pageNumber.value < totalPages then s.pageNumber.value + 1 else s.pageNumber.value)
  {
  }

  /** Every transition keeps the page number at least 1. */
  lemma TransitionsKeepPageValid(s: Session, choice: string, term: string, totalPages: int, deputy: string)
    requires PageValid(s)
    ensures PageValid(Initialize(s)) && PageValid(ResetPagination(s))
    ensures PageValid(SelectBlock(s, choice)) && PageValid(EnterSearchTerm(s, term))
    ensures s.pageNumber.Some? ==> PageValid(Previous(s, totalPages)) && PageValid(Next(s, totalPages))
    ensures PageValid(ViewProfile(s, deputy))
  {
  }

  /**
   * The session variables of one user, changed in place by the view's
   * callbacks and buttons.
   */
  class DeputiesSession {
    var blockFilter: Option<string>
    var searchTerm: Option<string>
    var pageNumber: Option<int>
    var selectedDeputy: Option<Option<string>>

    function State(): Session
      reads this
    {
      Session(blockFilter, searchTerm, pageNumber, selectedDeputy)
    }

    ghost predicate Valid()
      reads this
    {
      PageValid(State())
    }

    /** A new session has no variables set. */
    constructor ()
      ensures Valid() && State() == Session(None, None, None, None)
    {
      blockFilter, searchTerm, pageNumber, selectedDeputy := None, None, None, None;
    }

    method InitializeState()
      requires Valid()
      modifies this
      ensures Valid() && State() == Initialize(old(State()))
    {
      if blockFilter.None? {
        blockFilter := Some(ALL_BLOCKS);
      }
      if searchTerm.None? {
        searchTerm := Some("");
      }
      if pageNumber.None? {
        pageNumber := Some(1);
      }
      if selectedDeputy.None? {
        selectedDeputy := Some(None);
      }
    }

    method ResetPaginationState()
      requires Valid()
      modifies this`pageNumber
      ensures Valid() && State() == ResetPagination(old(State()))
    {
      pageNumber := Some(1);
    }

    /** The selector stores the new choice, then its change callback resets the page. */
    method ChangeBlockFilter(choice: string)
      requires Valid()
      modifies this`blockFilter, this`pageNumber
      ensures Valid() && State() == SelectBlock(old(State()), choice)
    {
      if blockFilter != Some(choice) {
        blockFilter := Some(choice);
        ResetPaginationState();
      }
    }

    /** The search box stores the new text, then its change callback resets the page. */
    method ChangeSearchTerm(term: string)
      requires Valid()
      modifies this`searchTerm, this`pageNumber
      ensures Valid() && State() == EnterSearchTerm(old(State()), term)
    {
      if searchTerm != Some(term) {
        searchTerm := Some(term);
        ResetPaginationState();
      }
    }

    method PressPrevious(totalPages: int)
      requires Valid() && pageNumber.Some?
      modifies this`pageNumber
      ensures Valid() && State() == Previous(old(State()), totalPages)
    {
      if totalPages > 1 && pageNumber.value > 1 {
        pageNumber := Some(pageNumber.value - 1);
      }
    }

    method PressNext(totalPages: int)
      requires Valid() && pageNumber.Some?
      modifies this`pageNumber
      ensures Valid() && State() == Next(old(State()), totalPages)
    {
      if totalPages > 1 && pageNumber.value < totalPages {
        pageNumber := Some(pageNumber.value + 1);
      }
    }

    method PressViewProfile(deputy: string)
      requires Valid()
      modifies this`selectedDeputy
      ensures Valid() && State() == ViewProfile(old(State()), deputy)
    {
      selectedDeputy := Some(Some(deputy));
    }
  }
}
