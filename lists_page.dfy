/**
  The lists overview page: a search by list name, a sort menu, and a dialog
  that adds a list by name.
 */
module ListsPage {
  import opened Seqs
  import opened Text
  import opened Types
  import opened Wrappers

  datatype PageState = PageState(
    lists: seq<List>,
    filteredLists: seq<List>,
    isAddListOpen: bool,
    newListName: string,
    sortOption: SortOption)

  predicate NameMatches(l: List, query: string) {
    ContainsIgnoringCase(l.name, query)
  }

  function Named(query: string): List -> bool {
    (l: List) => NameMatches(l, query)
  }

  /**
    Searching: an empty query shows every list; otherwise exactly the lists
    whose name contains the query, ignoring case, in their order.
   */
  function HandleSearch(st: PageState, query: string): (r: PageState)
    ensures r.(filteredLists := st.filteredLists) == st
    ensures query == [] ==> r.filteredLists == st.lists
    ensures query != [] ==> r.filteredLists == Filter(st.lists, Named(query))
    ensures forall l :: l in r.filteredLists <==> l in st.lists && NameMatches(l, query)
  {
    if query == [] then
      assert forall l :: NameMatches(l, query) by {
        forall l: List
          ensures NameMatches(l, query)
        {
          ContainsEmpty(Lower(l.name));
        }
      }
      st.(filteredLists := st.lists)
    else st.(filteredLists := Filter(st.lists, Named(query)))
  }

  /** The alphabetical comparator: names in character order (standing in for `localeCompare`). */
  predicate NameLe(a: List, b: List) {
    LexLe(a.name, b.name)
  }

  /** The "last modified" comparator: the more recently modified list first. */
  predicate NewerFirst(a: List, b: List) {
    a.lastModified >= b.lastModified
  }

  lemma NameOrder()
    ensures TotalPreorder(NameLe)
  {
    forall a: List, b: List
      ensures NameLe(a, b) || NameLe(b, a)
    {
      LexLeTotal(a.name, b.name);
    }
    forall a: List, b: List, c: List | NameLe(a, b) && NameLe(b, c)
      ensures NameLe(a, c)
    {
      LexLeTransitive(a.name, b.name, c.name);
    }
  }

  lemma NewestOrder()
    ensures TotalPreorder(NewerFirst)
  {
  }

  /**
    Choosing a sort: the shown lists are copied and the copy is sorted in place
    by name or by last modification (newest first); "custom" keeps the order.
    Either way the shown lists are a permutation of what was shown before.
   */
  method HandleSort(st: PageState, option: SortOption) returns (r: PageState)
    ensures r.(filteredLists := st.filteredLists, sortOption := st.sortOption) == st
    ensures r.sortOption == option
    ensures multiset(r.filteredLists) == multiset(st.filteredLists)
    ensures option == Alphabetical ==> SortedBy(r.filteredLists, NameLe)
    ensures option == LastModified ==> SortedBy(r.filteredLists, NewerFirst)
    ensures option == Custom ==> r.filteredLists == st.filteredLists
  {
    var shown := st.filteredLists;
    var sorted := new List[|shown|](i requires 0 <= i < |shown| => shown[i]);
    assert sorted[..] == shown;
    if option == Alphabetical {
      NameOrder();
      SortInPlace(sorted, NameLe);
    } else if option == LastModified {
      NewestOrder();
      SortInPlace(sorted, NewerFirst);
    }
    r := st.(sortOption := option, filteredLists := sorted[..]);
  }

  /** The list the dialog adds: the name as typed, no items yet, stamped with the clock. */
  function NewList(name: string, now: nat): (l: List)
    ensures l.id == NatToString(now) && l.name == name && l.itemCount == 0
    ensures l.icon.None? && l.lastModified == now
  {
    List(NatToString(now), name, 0, None, now)
  }

  /**
    Adding a list: a name that is blank after trimming changes nothing.
    Otherwise the new list (with the untrimmed name) goes in front, all lists
    are shown, the name field is cleared and the dialog closes.
   */
  function HandleAddList(st: PageState, now: nat): (r: PageState)
    ensures IsBlank(st.newListName) ==> r == st
    ensures !IsBlank(st.newListName) ==>
      && |r.lists| == |st.lists| + 1
      && r.lists[0] == NewList(st.newListName, now)
      && r.lists[1..] == st.lists
      && r.filteredLists == r.lists
      && r.newListName == []
      && !r.isAddListOpen
      && r.sortOption == st.sortOption
  {
    if IsBlank(st.newListName) then st
    else
      var updated := [NewList(st.newListName, now)] + st.lists;
      st.(lists := updated, filteredLists := updated, newListName := [], isAddListOpen := false)
  }

  /** The add is refused exactly when the typed name consists of white space only. */
  lemma AddRefusedIffAllSpace(st: PageState, now: nat)
    ensures HandleAddList(st, now) == st <==>
      forall i :: 0 <= i < |st.newListName| ==> IsSpace(st.newListName[i])
  {
    BlankIffAllSpace(st.newListName);
  }
}
