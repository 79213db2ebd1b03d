/**
  The search page: a query, a multi-select of tags and a "show completed"
  switch, narrowed over one fixed source of items (`source` below stands for
  the page's own item array).
 */
module SearchPage {
  import opened Seqs
  import opened Text
  import opened Types

  datatype SearchState = SearchState(
    query: string,
    results: seq<ListItem>,
    selectedTags: seq<string>,
    showCompleted: bool)

  /** The query filter: title, description or location contains it, ignoring case. Tag names are not searched. */
  predicate QueryMatches(it: ListItem, query: string) {
    || ContainsIgnoringCase(it.title, query)
    || (it.description.Some? && ContainsIgnoringCase(it.description.value, query))
    || (it.location.Some? && ContainsIgnoringCase(it.location.value, query))
  }

  /** The tag filter: at least one of the item's tags is selected. */
  predicate HasSelectedTag(it: ListItem, selected: seq<string>) {
    exists k :: 0 <= k < |it.tags| && it.tags[k].id in selected
  }

  /** All active filters together; an empty query or tag selection filters nothing. */
  predicate SearchMatches(it: ListItem, query: string, selected: seq<string>, includeCompleted: bool) {
    && (query == [] || QueryMatches(it, query))
    && (selected == [] || HasSelectedTag(it, selected))
    && (includeCompleted || !it.completed)
  }

  function Matching(query: string, selected: seq<string>, includeCompleted: bool): ListItem -> bool {
    (it: ListItem) => SearchMatches(it, query, selected, includeCompleted)
  }

  function ByQuery(query: string): ListItem -> bool {
    (it: ListItem) => QueryMatches(it, query)
  }

  function BySelectedTags(selected: seq<string>): ListItem -> bool {
    (it: ListItem) => HasSelectedTag(it, selected)
  }

  /**
    Narrows the source by the query, then the tags, then the completed switch,
    each step only when that filter is active. The result is the source items
    that pass all active filters, in their order.
   */
  method PerformSearch(source: seq<ListItem>, query: string, selected: seq<string>, includeCompleted: bool)
    returns (results: seq<ListItem>)
    ensures results == Filter(source, Matching(query, selected, includeCompleted))
    ensures forall it :: it in results <==> it in source && SearchMatches(it, query, selected, includeCompleted)
    ensures !includeCompleted ==> forall i :: 0 <= i < |results| ==> !results[i].completed
  {
    var filtered := source;
    var q: ListItem -> bool := (it: ListItem) => query == [] || QueryMatches(it, query);
    if query != [] {
      FilterCongruent(source, ByQuery(query), q);
      filtered := Filter(filtered, ByQuery(query));
    } else {
      FilterKeepsAll(source, q);
    }
    assert filtered == Filter(source, q);
    var qt: ListItem -> bool := (it: ListItem) => q(it) && (selected == [] || HasSelectedTag(it, selected));
    if |selected| > 0 {
      FilterFilter(source, q, BySelectedTags(selected), qt);
      filtered := Filter(filtered, BySelectedTags(selected));
    } else {
      FilterFilter(source, q, (it: ListItem) => true, qt);
      FilterKeepsAll(filtered, (it: ListItem) => true);
    }
    assert filtered == Filter(source, qt);
    if !includeCompleted {
      FilterFilter(source, qt, IsActive, Matching(query, selected, includeCompleted));
      filtered := Filter(filtered, IsActive);
    } else {
      FilterFilter(source, qt, (it: ListItem) => true, Matching(query, selected, includeCompleted));
      FilterKeepsAll(filtered, (it: ListItem) => true);
    }
    results := filtered;
  }

  /** With no query, no selected tag and completed items shown, every item is a result. */
  lemma NoFiltersReturnsEverything(source: seq<ListItem>)
    ensures Filter(source, Matching([], [], true)) == source
  {
    FilterKeepsAll(source, Matching([], [], true));
  }

  /**
    The tag multi-select: a selected id is removed (every occurrence), an
    unselected one is appended. Membership of every other id is unchanged.
   */
  function ToggleTag(selected: seq<string>, tagId: string): (r: seq<string>)
    ensures tagId in r <==> tagId !in selected
    ensures forall x :: x != tagId ==> (x in r <==> x in selected)
    ensures tagId !in selected ==> r == selected + [tagId]
  {
    if tagId in selected then Filter(selected, (id: string) => id != tagId)
    else selected + [tagId]
  }

  /** Toggling the same id twice restores which ids are selected. */
  lemma ToggleTagTwiceKeepsMembership(selected: seq<string>, tagId: string)
    ensures forall x :: x in ToggleTag(ToggleTag(selected, tagId), tagId) <==> x in selected
  {
  }

  /** Selecting an unselected id and deselecting it again gives back the exact selection. */
  lemma {:induction false} ToggleTagTwiceRestores(selected: seq<string>, tagId: string)
    requires tagId !in selected
    ensures ToggleTag(ToggleTag(selected, tagId), tagId) == selected
  {
    var notIt := (id: string) => id != tagId;
    FilterConcat(selected, [tagId], notIt);
    FilterKeepsAll(selected, notIt);
    FilterDropsAll([tagId], notIt);
    assert ToggleTag(selected + [tagId], tagId) == Filter(selected + [tagId], notIt);
  }

  /** Typing a query: it is remembered and the results are recomputed with it. */
  method HandleSearch(st: SearchState, source: seq<ListItem>, query: string) returns (r: SearchState)
    ensures r.query == query && r.selectedTags == st.selectedTags && r.showCompleted == st.showCompleted
    ensures r.results == Filter(source, Matching(query, st.selectedTags, st.showCompleted))
  {
    var results := PerformSearch(source, query, st.selectedTags, st.showCompleted);
    r := st.(query := query, results := results);
  }

  /** Clicking a tag: the selection is toggled and the results recomputed with it. */
  method HandleToggleTag(st: SearchState, source: seq<ListItem>, tagId: string) returns (r: SearchState)
    ensures r.query == st.query && r.showCompleted == st.showCompleted
    ensures r.selectedTags == ToggleTag(st.selectedTags, tagId)
    ensures r.results == Filter(source, Matching(st.query, r.selectedTags, st.showCompleted))
  {
    var selected := ToggleTag(st.selectedTags, tagId);
    var results := PerformSearch(source, st.query, selected, st.showCompleted);
    r := st.(selectedTags := selected, results := results);
  }

  /** Flipping the "show completed" switch and recomputing the results. */
  method HandleToggleShowCompleted(st: SearchState, source: seq<ListItem>) returns (r: SearchState)
    ensures r.query == st.query && r.selectedTags == st.selectedTags
    ensures r.showCompleted == !st.showCompleted
    ensures r.results == Filter(source, Matching(st.query, st.selectedTags, r.showCompleted))
  {
    var show := !st.showCompleted;
    var results := PerformSearch(source, st.query, st.selectedTags, show);
    r := st.(showCompleted := show, results := results);
  }
}
