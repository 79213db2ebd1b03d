/**
  The page of one tag: the items carrying the tag named by the route, the
  tag record itself as found on the first such item, and completion toggling
  and deletion of the shown items. `source` stands for the page's item array.
 */
module TagItemsPage {
  import opened Wrappers
  import opened Seqs
  import opened Types

  /** The view state; `tagId` is the route parameter (None when the route has none). */
  datatype PageState = PageState(tagId: Option<string>, items: seq<ListItem>, tag: Option<Tag>)

  /** The route names a tag: the parameter is present and not empty. */
  predicate HasTagParam(st: PageState) {
    st.tagId.Some? && st.tagId.value != []
  }

  function TagIdIs(tagId: string): Tag -> bool {
    (t: Tag) => t.id == tagId
  }

  /**
    Loading for the route's tag: the shown items become exactly the source
    items carrying the tag, in order; the tag becomes the first tag with that
    id on the first shown item, and is left as it was when no item carries it.
    Without a tag in the route nothing changes.
   */
  function Load(st: PageState, source: seq<ListItem>): (r: PageState)
    ensures !HasTagParam(st) ==> r == st
    ensures HasTagParam(st) ==>
      && r.tagId == st.tagId
      && r.items == Filter(source, WithTag(st.tagId.value))
      && forall it :: it in r.items <==> it in source && HasTagId(it, st.tagId.value)
    ensures HasTagParam(st) && r.items == [] ==> r.tag == st.tag
    ensures HasTagParam(st) && r.items != [] ==>
      var k := FindIndex(r.items[0].tags, TagIdIs(st.tagId.value));
      && k.Some?
      && r.tag == Some(r.items[0].tags[k.value])
      && r.tag.value.id == st.tagId.value
  {
    if !HasTagParam(st) then st
    else
      var id := st.tagId.value;
      var shown := Filter(source, WithTag(id));
      if shown == [] then st.(items := shown)
      else
        assert HasTagId(shown[0], id);
        match FindIndex(shown[0].tags, TagIdIs(id))
        case Some(k) => st.(items := shown, tag := Some(shown[0].tags[k]))
        case None => st.(items := shown)
  }

  /** Toggling completion: only items with id `itemId` flip `completed`; nothing else changes. */
  function HandleToggleComplete(st: PageState, itemId: string): (r: PageState)
    ensures r.tagId == st.tagId && r.tag == st.tag
    ensures |r.items| == |st.items|
    ensures forall i :: 0 <= i < |r.items| ==>
      && r.items[i].completed == (st.items[i].completed != (st.items[i].id == itemId))
      && r.items[i].(completed := st.items[i].completed) == st.items[i]
  {
    st.(items := ToggleCompleted(st.items, itemId))
  }

  /** Toggling the same item twice gives back the shown items. */
  lemma ToggleTwiceRestoresItems(st: PageState, itemId: string)
    ensures HandleToggleComplete(HandleToggleComplete(st, itemId), itemId) == st
  {
    ToggleCompletedTwice(st.items, itemId);
  }

  /** Deleting: every shown item with id `itemId` goes; the others stay, in order. */
  function HandleDeleteItem(st: PageState, itemId: string): (r: PageState)
    ensures r.tagId == st.tagId && r.tag == st.tag
    ensures r.items == Filter(st.items, ItemIdIsNot(itemId))
    ensures forall it :: it in r.items <==> it in st.items && it.id != itemId
  {
    st.(items := Filter(st.items, ItemIdIsNot(itemId)))
  }

  /** A delete shortens the shown items exactly when some shown item has that id. */
  lemma DeleteShrinksIffPresent(st: PageState, itemId: string)
    ensures |HandleDeleteItem(st, itemId).items| < |st.items| <==>
      exists i :: 0 <= i < |st.items| && st.items[i].id == itemId
  {
    FilterKeepsLength(st.items, ItemIdIsNot(itemId));
  }
}
