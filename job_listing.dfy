/** The job listing's search, filter and pagination engine.

    The pure part decides which postings are kept (four filter dimensions,
    each permissive when empty), reverses the survivors so the newest
    posting comes first, and cuts the result into pages of six. The
    stateful part, `ListingView`, holds the filter selections and the
    current page and updates them the way the listing's event handlers do. */
module JobListing {
  import opened Collections
  import opened Text
  import opened ClientData

  const JobsPerPage: nat := 6

  /** The free-text half of the filter (`searchFilter` in the application
      context), written by the hero search box. */
  datatype SearchFilter = SearchFilter(title: string, location: string)

  /** A free-text dimension: an empty query accepts every posting, otherwise
      the lower-cased field must contain the lower-cased query. */
  function TextMatch(field: string, query: string): (b: bool)
    ensures b <==> query == [] || exists i :: OccursAt(Lower(field), Lower(query), i)
  {
    ContainsAt(Lower(field), Lower(query));
    query == [] || Contains(Lower(field), Lower(query))
  }

  /** A checkbox dimension: nothing selected accepts every posting,
      otherwise the value must be one of the selected ones. */
  predicate ChoiceMatch(value: string, selected: seq<string>)
  {
    |selected| == 0 || value in selected
  }

  /** The listing's filter predicate: all four dimensions accept the job. */
  predicate Matches(job: Job, search: SearchFilter, categories: seq<string>, locations: seq<string>)
  {
    TextMatch(job.title, search.title)
    && TextMatch(job.location, search.location)
    && ChoiceMatch(job.category, categories)
    && ChoiceMatch(job.location, locations)
  }

  function Matcher(search: SearchFilter, categories: seq<string>, locations: seq<string>): Job -> bool
  {
    job => Matches(job, search, categories, locations)
  }

  /** Some dimension constrains the listing (the condition under which the
      "Current Filters" panel and its "Clear all" button appear). */
  predicate FiltersActive(search: SearchFilter, categories: seq<string>, locations: seq<string>)
  {
    search.title != [] || search.location != [] || |categories| > 0 || |locations| > 0
  }

  /** The memoised `filteredJobs`: no job list yet gives nothing; otherwise
      the matching postings, in reverse order of the fetched list. The
      contract states membership and order (a subsequence of the reversed
      list); the postings are distinct, their ids being unique, so the two
      fix the listing. */
  function FilteredJobs(jobs: Option<seq<Job>>, search: SearchFilter, categories: seq<string>, locations: seq<string>): (r: seq<Job>)
    ensures jobs.None? ==> r == []
    ensures jobs.Some? ==> |r| <= |jobs.value|
    ensures jobs.Some? ==> forall job :: job in r <==>
      job in jobs.value
      && TextMatch(job.title, search.title)
      && TextMatch(job.location, search.location)
      && ChoiceMatch(job.category, categories)
      && ChoiceMatch(job.location, locations)
    ensures jobs.Some? ==> IsSubsequence(r, Reverse(jobs.value))
  {
    match jobs
    case None => []
    case Some(js) =>
      var kept := Filter(js, Matcher(search, categories, locations));
      FilterReverse(js, Matcher(search, categories, locations));
      ReverseMembers(kept);
      Reverse(kept)
  }

  /** With no dimension active the listing is the fetched list reversed,
      every posting kept. */
  lemma {:induction false} InactiveFiltersKeepAll(js: seq<Job>, search: SearchFilter, categories: seq<string>, locations: seq<string>)
    requires !FiltersActive(search, categories, locations)
    ensures FilteredJobs(Some(js), search, categories, locations) == Reverse(js)
  {
    FilterKeepsAll(js, Matcher(search, categories, locations));
  }

  /** A selected category set that does not contain the posting's category
      excludes it, whatever the other dimensions say. */
  lemma CategoryExcludes(job: Job, search: SearchFilter, categories: seq<string>, locations: seq<string>, js: seq<Job>)
    requires |categories| > 0 && job.category !in categories
    ensures job !in FilteredJobs(Some(js), search, categories, locations)
  {
  }

  /** `Math.max(1, Math.ceil(n / jobsPerPage))`: the fewest pages (at least
      one) that hold `n` postings. */
  function TotalPages(n: nat): (r: nat)
    ensures r >= 1
    ensures n <= r * JobsPerPage
    ensures r == 1 || (r - 1) * JobsPerPage < n
  {
    var pages := (n + JobsPerPage - 1) / JobsPerPage;
    if pages < 1 then 1 else pages
  }

  /** `filteredJobs.slice((page - 1) * 6, page * 6)`: the postings shown on
      page `page`. */
  function PageItems(s: seq<Job>, page: nat): (r: seq<Job>)
    requires page >= 1
    ensures |r| <= JobsPerPage
    ensures (page - 1) * JobsPerPage < |s| ==> |r| == Min(JobsPerPage, |s| - (page - 1) * JobsPerPage)
    ensures (page - 1) * JobsPerPage >= |s| ==> r == []
    ensures forall i :: 0 <= i < |r| ==> r[i] == s[(page - 1) * JobsPerPage + i]
  {
    var start := Min((page - 1) * JobsPerPage, |s|);
    var end := Min(page * JobsPerPage, |s|);
    s[start..end]
  }

  /** Pages `first` to `last`, laid end to end. */
  function PagesFrom(s: seq<Job>, first: nat, last: nat): seq<Job>
    requires first >= 1
    decreases last + 1 - first
  {
    if first > last then [] else PageItems(s, first) + PagesFrom(s, first + 1, last)
  }

  lemma {:induction false} PagesFromSuffix(s: seq<Job>, first: nat)
    requires 1 <= first <= TotalPages(|s|) + 1
    ensures PagesFrom(s, first, TotalPages(|s|)) == s[Min((first - 1) * JobsPerPage, |s|)..]
    decreases TotalPages(|s|) + 1 - first
  {
    var last := TotalPages(|s|);
    if first > last {
      assert (first - 1) * 6 >= last * 6 >= |s|;
    } else {
      var a, b := Min((first - 1) * 6, |s|), Min(first * 6, |s|);
      assert a <= b;
      PagesFromSuffix(s, first + 1);
      assert (first + 1 - 1) * 6 == first * 6;
      calc {
        PagesFrom(s, first, last);
        PageItems(s, first) + PagesFrom(s, first + 1, last);
        s[a..b] + s[b..];
        { assert s[a..] == s[a..b] + s[b..]; }
        s[a..];
      }
    }
  }

  /** Every page but the last is full, the last one is not empty unless the
      whole listing is, and pages 1 to `TotalPages` together are exactly the
      listing: nothing is lost, repeated or reordered by pagination. */
  lemma PaginationPartitions(s: seq<Job>)
    ensures forall page :: 1 <= page < TotalPages(|s|) ==> |PageItems(s, page)| == JobsPerPage
    ensures |s| > 0 ==> |PageItems(s, TotalPages(|s|))| > 0
    ensures PagesFrom(s, 1, TotalPages(|s|)) == s
  {
    PagesFromSuffix(s, 1);
  }

  /** Fourteen postings make three pages, the third holding two. */
  lemma FourteenPostings(s: seq<Job>)
    requires |s| == 14
    ensures TotalPages(|s|) == 3 && |PageItems(s, 3)| == 2
  {
  }

  /** A checkbox change: remove the value when it is selected, append it
      otherwise. */
  function Toggle(selected: seq<string>, value: string): (r: seq<string>)
    ensures value in r <==> value !in selected
    ensures forall other :: other != value ==> (other in r <==> other in selected)
    ensures NoDup(selected) ==> NoDup(r)
  {
    if value in selected then Remove(selected, value)
    else
      assert NoDup(selected) ==> NoDup(selected + [value]) by {
        if NoDup(selected) {
          var r := selected + [value];
          forall i, j | 0 <= i < j < |r| ensures r[i] != r[j] {
            if j == |selected| { assert r[i] in selected; }
          }
        }
      }
      selected + [value]
  }

  /** Toggling the same value twice restores the selection as a set, and
      restores the very same list when the value was not selected. */
  lemma {:induction false} ToggleTwice(selected: seq<string>, value: string)
    ensures forall v :: v in Toggle(Toggle(selected, value), value) <==> v in selected
    ensures value !in selected ==> Toggle(Toggle(selected, value), value) == selected
  {
    if value !in selected {
      RemoveAppended(selected, value);
    }
  }

  /** The listing's state: the application context's job list and search
      filter, and the component's own checkbox selections and page. Every
      filter change is followed, in the same step, by the effect that puts
      the listing back on page 1. */
  class ListingView {
    var jobs: Option<seq<Job>>
    var searchFilter: SearchFilter
    var isSearched: bool
    var selectedCategory: seq<string>
    var selectedLocation: seq<string>
    var currentPage: nat

    function Filtered(): seq<Job>
      reads this
    {
      FilteredJobs(jobs, searchFilter, selectedCategory, selectedLocation)
    }

    function Pages(): nat
      reads this
    {
      TotalPages(|Filtered()|)
    }

    /** The "Current Filters" panel is rendered. */
    predicate ShowsCurrentFilters()
      reads this
    {
      isSearched && FiltersActive(searchFilter, selectedCategory, selectedLocation)
    }

    /** The current page is one of the pages, and no checkbox value is
        listed twice. */
    ghost predicate Valid()
      reads this
    {
      1 <= currentPage <= Pages() && NoDup(selectedCategory) && NoDup(selectedLocation)
    }

    constructor ()
      ensures Valid()
      ensures jobs == None && searchFilter == SearchFilter([], []) && !isSearched
      ensures selectedCategory == [] && selectedLocation == [] && currentPage == 1
    {
      jobs := None;
      searchFilter := SearchFilter([], []);
      isSearched := false;
      selectedCategory := [];
      selectedLocation := [];
      currentPage := 1;
    }

    /** A fetch of the job list landed (`setJobs`); the listing is
        recomputed and goes back to page 1. */
    method ReceiveJobs(fetched: Option<seq<Job>>)
      requires Valid()
      modifies this`jobs, this`currentPage
      ensures Valid()
      ensures jobs == fetched && currentPage == 1
    {
      jobs := fetched;
      currentPage := 1;
    }

    /** The hero search box: set both text queries and mark the listing as
        searched. */
    method Search(title: string, location: string)
      requires Valid()
      modifies this`searchFilter, this`isSearched, this`currentPage
      ensures Valid()
      ensures searchFilter == SearchFilter(title, location) && isSearched && currentPage == 1
    {
      searchFilter := SearchFilter(title, location);
      isSearched := true;
      currentPage := 1;
    }

    method ToggleCategory(category: string)
      requires Valid()
      modifies this`selectedCategory, this`currentPage
      ensures Valid()
      ensures selectedCategory == Toggle(old(selectedCategory), category) && currentPage == 1
    {
      selectedCategory := Toggle(selectedCategory, category);
      currentPage := 1;
    }

    method ToggleLocation(location: string)
      requires Valid()
      modifies this`selectedLocation, this`currentPage
      ensures Valid()
      ensures selectedLocation == Toggle(old(selectedLocation), location) && currentPage == 1
    {
      selectedLocation := Toggle(selectedLocation, location);
      currentPage := 1;
    }

    method ClearTitle()
      requires Valid()
      modifies this`searchFilter, this`currentPage
      ensures Valid()
      ensures searchFilter == old(searchFilter).(title := []) && currentPage == 1
    {
      searchFilter := searchFilter.(title := []);
      currentPage := 1;
    }

    method ClearLocation()
      requires Valid()
      modifies this`searchFilter, this`currentPage
      ensures Valid()
      ensures searchFilter == old(searchFilter).(location := []) && currentPage == 1
    {
      searchFilter := searchFilter.(location := []);
      currentPage := 1;
    }

    /** Empty every dimension at once. The resulting state does not depend
        on the filters before, so clearing twice is clearing once; the panel
        disappears and the listing is the whole job list, newest first. */
    method ClearAllFilters()
      requires Valid()
      modifies this`searchFilter, this`selectedCategory, this`selectedLocation, this`currentPage
      ensures Valid()
      ensures searchFilter == SearchFilter([], []) && selectedCategory == [] && selectedLocation == []
      ensures currentPage == 1
      ensures !ShowsCurrentFilters()
      ensures Filtered() == if jobs.None? then [] else Reverse(jobs.value)
    {
      searchFilter := SearchFilter([], []);
      selectedCategory := [];
      selectedLocation := [];
      currentPage := 1;
      if jobs.Some? {
        InactiveFiltersKeepAll(jobs.value, searchFilter, selectedCategory, selectedLocation);
      }
    }

    /** The left arrow: one page back, never below page 1. */
    method PreviousPage()
      requires Valid()
      modifies this`currentPage
      ensures Valid()
      ensures currentPage == Max(old(currentPage) - 1, 1)
    {
      currentPage := Max(currentPage - 1, 1);
    }

    /** The right arrow: one page on, never past the last page. */
    method NextPage()
      requires Valid()
      modifies this`currentPage
      ensures Valid()
      ensures currentPage == Min(old(currentPage) + 1, Pages())
    {
      currentPage := Min(currentPage + 1, Pages());
    }

    /** The numbered buttons: button `index` (counted from 0) opens page
        `index + 1`; a button exists for each page. */
    method GoToPage(index: nat)
      requires Valid()
      requires index < Pages()
      modifies this`currentPage
      ensures Valid()
      ensures currentPage == index + 1
    {
      currentPage := index + 1;
    }
  }
}
