/**
  The list detail page: the items of one list, a case-insensitive search over
  them, and their split into active and completed items. Every handler
  replaces the four item collections of the view state together.
 */
module ListDetailPage {
  import opened Wrappers
  import opened Seqs
  import opened Text
  import opened Types

  /** The view state; `listId` is the route parameter (None when the route has none). */
  datatype PageState = PageState(
    listId: Option<string>,
    list: Option<List>,
    items: seq<ListItem>,
    filteredItems: seq<ListItem>,
    activeItems: seq<ListItem>,
    completedItems: seq<ListItem>)

  /** The active and completed sections split the shown items by their `completed` flag, in order. */
  predicate SplitConsistent(st: PageState) {
    && st.activeItems == Filter(st.filteredItems, IsActive)
    && st.completedItems == Filter(st.filteredItems, IsCompleted)
  }

  /** Shows `shown` and recomputes both sections from it. */
  function Show(st: PageState, shown: seq<ListItem>): (r: PageState)
    ensures SplitConsistent(r)
    ensures r.filteredItems == shown
    ensures r.listId == st.listId && r.list == st.list && r.items == st.items
  {
    st.(filteredItems := shown,
        activeItems := Filter(shown, IsActive),
        completedItems := Filter(shown, IsCompleted))
  }

  /** Every shown item is in exactly one section, and the sections hold nothing else. */
  lemma SplitPartition(st: PageState)
    requires SplitConsistent(st)
    ensures |st.activeItems| + |st.completedItems| == |st.filteredItems|
    ensures multiset(st.activeItems) + multiset(st.completedItems) == multiset(st.filteredItems)
    ensures forall it :: it in st.activeItems ==> !it.completed
    ensures forall it :: it in st.completedItems ==> it.completed
  {
    FilterPartition(st.filteredItems, IsActive, IsCompleted);
  }

  /** The route names a list: the parameter is present and not empty. */
  predicate HasListId(st: PageState) {
    st.listId.Some? && st.listId.value != []
  }

  /**
    Loading the page for its route: the first list with the route's id and
    that list's items (none when the item source has no entry for it).
    `navigateBack` is set when no list has that id; then the state is unchanged.
   */
  function Load(st: PageState, lists: seq<List>, itemsOf: map<string, seq<ListItem>>)
    : (r: (PageState, bool))
    ensures !HasListId(st) ==> r == (st, false)
    ensures HasListId(st) ==>
      var found := FindIndex(lists, (l: List) => l.id == st.listId.value);
      && (found.None? <==> r.1)
      && (found.None? ==> r.0 == st)
      && (found.Some? ==>
        && r.0.listId == st.listId
        && r.0.list == Some(lists[found.value])
        && r.0.list.value.id == st.listId.value
        && r.0.items == (if st.listId.value in itemsOf then itemsOf[st.listId.value] else [])
        && r.0.filteredItems == r.0.items
        && SplitConsistent(r.0))
  {
    if !HasListId(st) then (st, false)
    else
      var id := st.listId.value;
      match FindIndex(lists, (l: List) => l.id == id)
      case None => (st, true)
      case Some(k) =>
        var listItems := if id in itemsOf then itemsOf[id] else [];
        (Show(st.(list := Some(lists[k]), items := listItems), listItems), false)
  }

  /** The optional text is present and contains `query`, ignoring case. */
  predicate OptionContains(field: Option<string>, query: string) {
    field.Some? && ContainsIgnoringCase(field.value, query)
  }

  /** Some tag of the item has a name containing `query`, ignoring case. */
  predicate SomeTagNameContains(tags: seq<Tag>, query: string) {
    exists k :: 0 <= k < |tags| && ContainsIgnoringCase(tags[k].name, query)
  }

  /** The page's search: title, description, any tag name or location contains the query. */
  predicate MatchesQuery(it: ListItem, query: string) {
    || ContainsIgnoringCase(it.title, query)
    || OptionContains(it.description, query)
    || SomeTagNameContains(it.tags, query)
    || OptionContains(it.location, query)
  }

  function Matching(query: string): ListItem -> bool {
    (it: ListItem) => MatchesQuery(it, query)
  }

  /**
    Searching: an empty query shows every item; otherwise exactly the matching
    items are shown, in their order. The items themselves do not change.
   */
  function HandleSearch(st: PageState, query: string): (r: PageState)
    ensures SplitConsistent(r)
    ensures r.listId == st.listId && r.list == st.list && r.items == st.items
    ensures query == [] ==> r.filteredItems == st.items
    ensures query != [] ==> r.filteredItems == Filter(st.items, Matching(query))
    ensures forall it :: it in r.filteredItems <==> it in st.items && MatchesQuery(it, query)
  {
    if query == [] then
      assert forall it :: MatchesQuery(it, query) by {
        forall it: ListItem
          ensures MatchesQuery(it, query)
        {
          ContainsEmpty(Lower(it.title));
        }
      }
      Show(st, st.items)
    else Show(st, Filter(st.items, Matching(query)))
  }

  /** The reset for the empty query shows what filtering by the empty query would. */
  lemma EmptyQueryMatchesAll(items: seq<ListItem>)
    ensures Filter(items, Matching("")) == items
  {
    forall i | 0 <= i < |items|
      ensures Matching("")(items[i])
    {
      ContainsEmpty(Lower(items[i].title));
    }
    FilterKeepsAll(items, Matching(""));
  }

  /**
    Toggling completion: only items with id `itemId` flip `completed`, nothing
    else about the items changes, and the search is reset to show all items.
   */
  function HandleToggleComplete(st: PageState, itemId: string): (r: PageState)
    ensures SplitConsistent(r)
    ensures r.listId == st.listId && r.list == st.list
    ensures |r.items| == |st.items|
    ensures forall i :: 0 <= i < |r.items| ==>
      && r.items[i].completed == (st.items[i].completed != (st.items[i].id == itemId))
      && r.items[i].(completed := st.items[i].completed) == st.items[i]
    ensures r.filteredItems == r.items
  {
    var updated := ToggleCompleted(st.items, itemId);
    Show(st.(items := updated), updated)
  }

  /** Toggling the same item twice gives back the items. */
  lemma ToggleTwiceRestoresItems(st: PageState, itemId: string)
    ensures HandleToggleComplete(HandleToggleComplete(st, itemId), itemId).items == st.items
  {
    ToggleCompletedTwice(st.items, itemId);
  }

  /** The item a save without an id creates; its id is the clock reading's digits. */
  function NewItem(patch: ItemPatch, now: nat): (it: ListItem)
    ensures it.id == NatToString(now) && !it.completed && it.createdAt == now
    ensures it.title == patch.title.GetOr("") && it.tags == patch.tags.GetOr([])
    ensures it.url == patch.url && it.description == patch.description && it.location == patch.location
    ensures it.previewImage.None?
  {
    ListItem(
      NatToString(now),
      patch.title.GetOr(""),
      patch.url,
      patch.description,
      patch.tags.GetOr([]),
      patch.location,
      false,
      now,
      None)
  }

  /** A save that carries no id (or an empty one) creates an item rather than updating. */
  predicate IsNewItem(patch: ItemPatch) {
    patch.id.None? || patch.id.value == []
  }

  /** Every item with the patch's id gets the patch merged in; the others stay. */
  function MergeMatching(items: seq<ListItem>, itemId: string, patch: ItemPatch): (r: seq<ListItem>)
    ensures |r| == |items|
    ensures forall i :: 0 <= i < |r| ==>
      r[i] == if items[i].id == itemId then MergeItem(items[i], patch) else items[i]
  {
    seq(|items|, i requires 0 <= i < |items| =>
      if items[i].id == itemId then MergeItem(items[i], patch) else items[i])
  }

  /**
    Saving from the item dialog. Without a list id nothing happens. A patch
    without an id puts a new item in front of the others; a patch with an id
    is merged into every item with that id. The search is reset to show all items.
   */
  function HandleSaveItem(st: PageState, patch: ItemPatch, now: nat): (r: PageState)
    ensures !HasListId(st) ==> r == st
    ensures HasListId(st) ==>
      && SplitConsistent(r)
      && r.listId == st.listId && r.list == st.list
      && r.filteredItems == r.items
    ensures HasListId(st) && IsNewItem(patch) ==>
      && |r.items| == |st.items| + 1
      && r.items[0] == NewItem(patch, now)
      && r.items[1..] == st.items
    ensures HasListId(st) && !IsNewItem(patch) ==>
      && |r.items| == |st.items|
      && forall i :: 0 <= i < |r.items| ==>
        r.items[i] == if st.items[i].id == patch.id.value then MergeItem(st.items[i], patch) else st.items[i]
  {
    if !HasListId(st) then st
    else
      var updated :=
        if IsNewItem(patch) then [NewItem(patch, now)] + st.items
        else MergeMatching(st.items, patch.id.value, patch);
      Show(st.(items := updated), updated)
  }

  /** A patch that names only an id changes no item: merging it is the identity. */
  lemma IdOnlyPatchKeepsItems(st: PageState, itemId: string, now: nat)
    requires HasListId(st) && itemId != []
    ensures var patch := ItemPatch(Some(itemId), None, None, None, None, None, None, None, None);
      HandleSaveItem(st, patch, now).items == st.items
  {
    var patch := ItemPatch(Some(itemId), None, None, None, None, None, None, None, None);
    var r := HandleSaveItem(st, patch, now);
    forall i | 0 <= i < |st.items|
      ensures r.items[i] == st.items[i]
    {
    }
  }
}
