/**
 * The list page of src/pages/ContentListPage.tsx: the filtering effect
 * (search term and status filter) and the delete-confirmation dialog.
 */
module ContentListPage {
  import opened Types
  import opened Text
  import Seqs

  // ---------------------------------------------------------------------
  // The filtering effect
  // ---------------------------------------------------------------------

  /** The search test: the lower-cased term occurs in the lower-cased title or body. */
  predicate MatchesSearch(c: Content, term: string): (b: bool)
    ensures term == "" ==> b
  {
    ContainsEmpty(Lower(c.title));
    Contains(Lower(c.title), Lower(term)) || Contains(Lower(c.body), Lower(term))
  }

  /** The status test: `content.status === statusFilter`. */
  predicate MatchesStatus(c: Content, statusFilter: string) {
    StatusName(c.status) == statusFilter
  }

  /** Whether an item survives both stages for the given term and filter. */
  predicate Kept(c: Content, term: string, statusFilter: string) {
    (term == "" || MatchesSearch(c, term)) && (statusFilter == "all" || MatchesStatus(c, statusFilter))
  }

  function SearchTest(term: string): (test: Content -> bool) {
    (c: Content) => MatchesSearch(c, term)
  }

  function StatusTest(statusFilter: string): (test: Content -> bool) {
    (c: Content) => MatchesStatus(c, statusFilter)
  }

  function KeepTest(term: string, statusFilter: string): (test: Content -> bool) {
    (c: Content) => Kept(c, term, statusFilter)
  }

  /**
   * What the effect stores in `filteredContents`: the search stage when
   * the term is truthy, then the status stage when the filter is not
   * `"all"`.
   */
  function FilterContents(contents: seq<Content>, term: string, statusFilter: string): (r: seq<Content>)
    ensures |r| <= |contents|
  {
    var searched := if term != "" then Seqs.Filter(contents, SearchTest(term)) else contents;
    if statusFilter != "all" then Seqs.Filter(searched, StatusTest(statusFilter)) else searched
  }

  /** The two stages are one filter by the combined test. */
  lemma FilterContentsIsOneFilter(contents: seq<Content>, term: string, statusFilter: string)
    ensures FilterContents(contents, term, statusFilter) == Seqs.Filter(contents, KeepTest(term, statusFilter))
  {
    var keep := KeepTest(term, statusFilter);
    if term != "" && statusFilter != "all" {
      Seqs.FilterFilter(contents, SearchTest(term), StatusTest(statusFilter), keep);
    } else if term != "" {
      Seqs.FilterSame(contents, SearchTest(term), keep);
    } else if statusFilter != "all" {
      Seqs.FilterSame(contents, StatusTest(statusFilter), keep);
    } else {
      Seqs.FilterAllPass(contents, keep);
    }
  }

  /** An item is shown exactly when it is in the list and passes both active tests. */
  lemma FilterContentsMembers(contents: seq<Content>, term: string, statusFilter: string)
    ensures forall c :: (c in FilterContents(contents, term, statusFilter)
                         <==> c in contents && Kept(c, term, statusFilter))
  {
    FilterContentsIsOneFilter(contents, term, statusFilter);
    Seqs.FilterMembers(contents, KeepTest(term, statusFilter));
  }

  /** The shown items keep the list's order, and each shown item appears as often as in the list. */
  lemma FilterContentsOrderAndCounts(contents: seq<Content>, term: string, statusFilter: string)
    ensures Seqs.IsSubsequence(FilterContents(contents, term, statusFilter), contents)
    ensures forall c :: (Seqs.Count(FilterContents(contents, term, statusFilter), c)
                         == if Kept(c, term, statusFilter) then Seqs.Count(contents, c) else 0)
  {
    var keep := KeepTest(term, statusFilter);
    FilterContentsIsOneFilter(contents, term, statusFilter);
    Seqs.FilterIsSubsequence(contents, keep);
    forall c
      ensures Seqs.Count(Seqs.Filter(contents, keep), c) == if keep(c) then Seqs.Count(contents, c) else 0
    {
      Seqs.FilterCount(contents, keep, c);
    }
  }

  /** With an empty term and the filter at `"all"` the whole list is shown. */
  lemma NoFilterShowsAll(contents: seq<Content>)
    ensures FilterContents(contents, "", "all") == contents
  {
  }

  /** With a status filter other than `"all"`, every shown item has that status. */
  lemma StatusFilterHolds(contents: seq<Content>, term: string, statusFilter: string)
    requires statusFilter != "all"
    ensures forall c :: c in FilterContents(contents, term, statusFilter) ==> StatusName(c.status) == statusFilter
  {
    FilterContentsMembers(contents, term, statusFilter);
  }

  /** The truthiness guard on the term changes nothing: every string includes the empty string. */
  lemma EmptyTermMatchesAll(c: Content)
    ensures MatchesSearch(c, "")
  {
    ContainsEmpty(Lower(c.title));
  }

  // ---------------------------------------------------------------------
  // Deleting
  // ---------------------------------------------------------------------

  /** `contents.filter((content) => content.id !== id)`. */
  function WithoutContent(contents: seq<Content>, id: string): (r: seq<Content>)
    ensures forall c :: c in r <==> c in contents && c.id != id
    ensures Seqs.IsSubsequence(r, contents)
    ensures forall c :: Seqs.Count(r, c) == if c.id != id then Seqs.Count(contents, c) else 0
  {
    var other := (c: Content) => c.id != id;
    Seqs.FilterMembers(contents, other);
    Seqs.FilterIsSubsequence(contents, other);
    Seqs.FilterCounts(contents, other);
    Seqs.Filter(contents, other)
  }

  // ---------------------------------------------------------------------
  // The page's state
  // ---------------------------------------------------------------------

  /** The state of a mounted `ContentListPage`. */
  class Page {
    var contents: seq<Content>
    var filteredContents: seq<Content>
    var isLoading: bool
    var searchTerm: string
    var statusFilter: string
    var deleteDialogOpen: bool
    var contentToDelete: Option<string>

    /** After every render the filtering effect has brought `filteredContents` up to date. */
    ghost predicate Valid()
      reads this
    {
      filteredContents == FilterContents(contents, searchTerm, statusFilter)
    }

    /** Mounting: the initial state, with the fetch of the contents under way. */
    constructor ()
      ensures Valid()
      ensures contents == [] && filteredContents == [] && isLoading
      ensures searchTerm == "" && statusFilter == "all"
      ensures !deleteDialogOpen && contentToDelete == None
    {
      contents := [];
      filteredContents := [];
      isLoading := true;
      searchTerm := "";
      statusFilter := "all";
      deleteDialogOpen := false;
      contentToDelete := None;
    }

    /** The filtering effect, run after a change to the term, the filter or the list. */
    method Refilter()
      modifies this
      ensures Valid()
      ensures contents == old(contents) && isLoading == old(isLoading)
      ensures searchTerm == old(searchTerm) && statusFilter == old(statusFilter)
      ensures deleteDialogOpen == old(deleteDialogOpen) && contentToDelete == old(contentToDelete)
    {
      var filtered := contents;
      if searchTerm != "" {
        filtered := Seqs.Filter(filtered, SearchTest(searchTerm));
      }
      if statusFilter != "all" {
        filtered := Seqs.Filter(filtered, StatusTest(statusFilter));
      }
      filteredContents := filtered;
    }

    /** The fetch settles: on success the list is replaced; either way loading ends. */
    method ContentsLoaded(result: Option<seq<Content>>)
      requires Valid()
      modifies this
      ensures Valid()
      ensures contents == (if result.Some? then result.value else old(contents))
      ensures !isLoading
      ensures searchTerm == old(searchTerm) && statusFilter == old(statusFilter)
      ensures deleteDialogOpen == old(deleteDialogOpen) && contentToDelete == old(contentToDelete)
    {
      if result.Some? {
        contents := result.value;
        filteredContents := result.value;
        Refilter();
      }
      isLoading := false;
    }

    /** Typing in the search field. */
    method SetSearchTerm(term: string)
      requires Valid()
      modifies this
      ensures Valid()
      ensures searchTerm == term
      ensures contents == old(contents) && isLoading == old(isLoading) && statusFilter == old(statusFilter)
      ensures deleteDialogOpen == old(deleteDialogOpen) && contentToDelete == old(contentToDelete)
    {
      searchTerm := term;
      Refilter();
    }

    /** Picking a status in the filter select. */
    method SetStatusFilter(f: string)
      requires Valid()
      modifies this
      ensures Valid()
      ensures statusFilter == f
      ensures contents == old(contents) && isLoading == old(isLoading) && searchTerm == old(searchTerm)
      ensures deleteDialogOpen == old(deleteDialogOpen) && contentToDelete == old(contentToDelete)
    {
      statusFilter := f;
      Refilter();
    }

    /** `handleDeleteClick(id)`: remember the id and open the dialog. */
    method DeleteClick(id: string)
      requires Valid()
      modifies this
      ensures Valid()
      ensures contentToDelete == Some(id) && deleteDialogOpen
      ensures contents == old(contents) && filteredContents == old(filteredContents)
      ensures isLoading == old(isLoading) && searchTerm == old(searchTerm) && statusFilter == old(statusFilter)
    {
      contentToDelete := Some(id);
      deleteDialogOpen := true;
    }

    /**
     * `handleDeleteConfirm`; `deleted` is whether the service call
     * resolved. Without a (truthy) remembered id nothing happens at all;
     * with one the dialog is closed and the id cleared whatever the outcome.
     */
    method DeleteConfirm(deleted: bool)
      requires Valid()
      modifies this
      ensures Valid()
      ensures !Truthy(old(contentToDelete)) ==>
        contents == old(contents) && filteredContents == old(filteredContents)
        && deleteDialogOpen == old(deleteDialogOpen) && contentToDelete == old(contentToDelete)
      ensures Truthy(old(contentToDelete)) ==> !deleteDialogOpen && contentToDelete == None
      ensures Truthy(old(contentToDelete)) && deleted ==>
        contents == WithoutContent(old(contents), old(contentToDelete).value)
        && forall c :: c in filteredContents ==> c.id != old(contentToDelete).value
      ensures Truthy(old(contentToDelete)) && !deleted ==> contents == old(contents)
      ensures isLoading == old(isLoading) && searchTerm == old(searchTerm) && statusFilter == old(statusFilter)
    {
      if Truthy(contentToDelete) {
        var id := contentToDelete.value;
        if deleted {
          contents := WithoutContent(contents, id);
          Refilter();
          FilterContentsMembers(contents, searchTerm, statusFilter);
        }
        deleteDialogOpen := false;
        contentToDelete := None;
      }
    }

    /** `handleDeleteCancel`: close the dialog and forget the id. */
    method DeleteCancel()
      requires Valid()
      modifies this
      ensures Valid()
      ensures !deleteDialogOpen && contentToDelete == None
      ensures contents == old(contents) && filteredContents == old(filteredContents)
      ensures isLoading == old(isLoading) && searchTerm == old(searchTerm) && statusFilter == old(statusFilter)
    {
      deleteDialogOpen := false;
      contentToDelete := None;
    }
  }
}
