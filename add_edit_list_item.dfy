/**
  The add/edit item dialog: text fields, a tag editor, and a save that hands
  a partial item to the page and closes the dialog.
 */
module AddEditListItem {
  import opened Wrappers
  import opened Seqs
  import opened Text
  import opened Types
  import ListDetailPage

  datatype EditorState = EditorState(
    title: string,
    url: string,
    description: string,
    location: string,
    tagInput: string,
    tags: seq<Tag>)

  /** What pressing save does: nothing, or hand `payload` to the page and then close. */
  datatype SaveOutcome = Ignored | SavedAndClosed(payload: ItemPatch)

  /** The fields as the dialog opens: the edited item's values, absent ones as "" or no tags. */
  function Init(item: Option<ListItem>): (st: EditorState)
    ensures st.tagInput == []
    ensures item.None? ==> st == EditorState([], [], [], [], [], [])
    ensures item.Some? ==>
      && st.title == item.value.title
      && st.url == item.value.url.GetOr([])
      && st.description == item.value.description.GetOr([])
      && st.location == item.value.location.GetOr([])
      && st.tags == item.value.tags
  {
    match item
    case None => EditorState([], [], [], [], [], [])
    case Some(it) =>
      EditorState(it.title, it.url.GetOr([]), it.description.GetOr([]), it.location.GetOr([]), [], it.tags)
  }

  /**
    Adding a tag: input that is blank after trimming changes nothing.
    Otherwise one tag with the trimmed input as name and the clock digits as id
    is appended after the others, and the input is cleared.
   */
  function HandleAddTag(st: EditorState, now: nat): (r: EditorState)
    ensures IsBlank(st.tagInput) ==> r == st
    ensures !IsBlank(st.tagInput) ==>
      && |r.tags| == |st.tags| + 1
      && r.tags[..|st.tags|] == st.tags
      && r.tags[|st.tags|] == Tag(NatToString(now), Trim(st.tagInput), None)
      && r.tagInput == []
      && r.(tags := st.tags, tagInput := st.tagInput) == st
  {
    if IsBlank(st.tagInput) then st
    else st.(tags := st.tags + [Tag(NatToString(now), Trim(st.tagInput), None)], tagInput := [])
  }

  /** An added tag's name is never empty and never starts or ends with white space. */
  lemma AddedTagNameIsTrimmed(st: EditorState, now: nat)
    requires !IsBlank(st.tagInput)
    ensures var name := HandleAddTag(st, now).tags[|st.tags|].name;
      name != [] && !IsSpace(name[0]) && !IsSpace(name[|name| - 1])
  {
  }

  /** Removing a tag: every tag with id `tagId` goes; the others stay, in order. */
  function RemoveTag(st: EditorState, tagId: string): (r: EditorState)
    ensures r.(tags := st.tags) == st
    ensures r.tags == Filter(st.tags, TagIdIsNot(tagId))
    ensures forall t :: t in r.tags <==> t in st.tags && t.id != tagId
    ensures |r.tags| <= |st.tags|
  {
    st.(tags := Filter(st.tags, TagIdIsNot(tagId)))
  }

  /** Adding a tag and removing it again by its id gives back the tags, when no older tag shares that id. */
  lemma {:induction false} AddThenRemoveRestoresTags(st: EditorState, now: nat)
    requires !IsBlank(st.tagInput)
    requires forall i :: 0 <= i < |st.tags| ==> st.tags[i].id != NatToString(now)
    ensures RemoveTag(HandleAddTag(st, now), NatToString(now)).tags == st.tags
  {
    var id := NatToString(now);
    var notIt := TagIdIsNot(id);
    var after := HandleAddTag(st, now);
    var added := after.tags[|st.tags|];
    assert after.tags == st.tags + [added];
    FilterConcat(st.tags, [added], notIt);
    FilterKeepsAll(st.tags, notIt);
    FilterDropsAll([added], notIt);
  }

  /**
    Saving: a title that is blank after trimming does nothing. Otherwise the
    page receives the fields as typed (untrimmed), the tags, the edited item's
    completion flag (false for a new item) and creation time (the clock for a
    new item), and no id; then the dialog closes.
   */
  function HandleSave(st: EditorState, item: Option<ListItem>, now: nat): (r: SaveOutcome)
    ensures r.Ignored? <==> IsBlank(st.title)
    ensures r.SavedAndClosed? ==>
      && r.payload.id.None?
      && r.payload.title == Some(st.title)
      && r.payload.url == Some(st.url)
      && r.payload.description == Some(st.description)
      && r.payload.location == Some(st.location)
      && r.payload.tags == Some(st.tags)
      && r.payload.completed == Some(item.Some? && item.value.completed)
      && r.payload.createdAt == Some(if item.Some? then item.value.createdAt else now)
      && r.payload.previewImage.None?
  {
    if IsBlank(st.title) then Ignored
    else
      SavedAndClosed(ItemPatch(
        None,
        Some(st.title),
        Some(st.url),
        Some(st.description),
        Some(st.tags),
        Some(st.location),
        Some(if item.Some? then item.value.completed else false),
        Some(if item.Some? then item.value.createdAt else now),
        None))
  }

  /**
    Opening the dialog on an item and saving it untouched gives a patch that
    merges back into the same item, when the item has all its optional text fields.
   */
  lemma OpenThenSaveRoundTrip(it: ListItem, now: nat)
    requires !IsBlank(it.title)
    requires it.url.Some? && it.description.Some? && it.location.Some?
    ensures var r := HandleSave(Init(Some(it)), Some(it), now);
      r.SavedAndClosed? && MergeItem(it, r.payload) == it
  {
  }

  /**
    A save from the dialog always makes the list detail page put a new item in
    front (the payload never carries an id), titled and tagged as typed and not
    completed, even when the dialog was editing a completed item.
   */
  lemma SaveAddsNewItemOnListPage(st: EditorState, item: Option<ListItem>, page: ListDetailPage.PageState, now: nat, later: nat)
    requires !IsBlank(st.title) && ListDetailPage.HasListId(page)
    ensures var r := HandleSave(st, item, now);
      && r.SavedAndClosed?
      && var after := ListDetailPage.HandleSaveItem(page, r.payload, later);
      && |after.items| == |page.items| + 1
      && after.items[1..] == page.items
      && after.items[0].title == st.title
      && after.items[0].tags == st.tags
      && !after.items[0].completed
  {
  }
}
