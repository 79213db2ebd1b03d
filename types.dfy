/**
  The records of the application (lists, items, tags), the partial records
  that update operations merge in (`Partial<List>`, `Partial<ListItem>`),
  and the item-level helpers that several components share.
 */
module Types {
  import opened Wrappers

  /** A `Date`, as milliseconds since the epoch. */
  type Date = int

  /** A tag; `count` is optional and only the read projection fills it in. */
  datatype Tag = Tag(id: string, name: string, count: Option<int>)

  datatype List = List(
    id: string,
    name: string,
    itemCount: int,
    icon: Option<string>,
    lastModified: Date)

  /** An item; it embeds copies of its tags rather than references to them. */
  datatype ListItem = ListItem(
    id: string,
    title: string,
    url: Option<string>,
    description: Option<string>,
    tags: seq<Tag>,
    location: Option<string>,
    completed: bool,
    createdAt: Date,
    previewImage: Option<string>)

  datatype SortOption = Alphabetical | LastModified | Custom

  /** `Partial<List>`: a field is either present (Some) or absent (None). */
  datatype ListPatch = ListPatch(
    id: Option<string>,
    name: Option<string>,
    itemCount: Option<int>,
    icon: Option<string>,
    lastModified: Option<Date>)

  /** The empty patch `{}`. */
  const NoListChanges := ListPatch(None, None, None, None, None)

  /** `Partial<ListItem>`: a field is either present (Some) or absent (None). */
  datatype ItemPatch = ItemPatch(
    id: Option<string>,
    title: Option<string>,
    url: Option<string>,
    description: Option<string>,
    tags: Option<seq<Tag>>,
    location: Option<string>,
    completed: Option<bool>,
    createdAt: Option<Date>,
    previewImage: Option<string>)

  /** `{ ...l, ...p }`: the fields present in `p` override those of `l`. */
  function MergeList(l: List, p: ListPatch): (r: List)
    ensures p.id.Some? ==> r.id == p.id.value
    ensures p.id.None? ==> r.id == l.id
    ensures p.name.Some? ==> r.name == p.name.value
    ensures p.name.None? ==> r.name == l.name
    ensures p.itemCount.Some? ==> r.itemCount == p.itemCount.value
    ensures p.itemCount.None? ==> r.itemCount == l.itemCount
    ensures p.icon.Some? ==> r.icon == p.icon
    ensures p.icon.None? ==> r.icon == l.icon
    ensures p.lastModified.Some? ==> r.lastModified == p.lastModified.value
    ensures p.lastModified.None? ==> r.lastModified == l.lastModified
  {
    List(
      p.id.GetOr(l.id),
      p.name.GetOr(l.name),
      p.itemCount.GetOr(l.itemCount),
      p.icon.OrElse(l.icon),
      p.lastModified.GetOr(l.lastModified))
  }

  /** `{ ...it, ...p }`: the fields present in `p` override those of `it`. */
  function MergeItem(it: ListItem, p: ItemPatch): (r: ListItem)
    ensures p.id.Some? ==> r.id == p.id.value
    ensures p.id.None? ==> r.id == it.id
    ensures p.title.Some? ==> r.title == p.title.value
    ensures p.title.None? ==> r.title == it.title
    ensures p.url.Some? ==> r.url == p.url
    ensures p.url.None? ==> r.url == it.url
    ensures p.description.Some? ==> r.description == p.description
    ensures p.description.None? ==> r.description == it.description
    ensures p.tags.Some? ==> r.tags == p.tags.value
    ensures p.tags.None? ==> r.tags == it.tags
    ensures p.location.Some? ==> r.location == p.location
    ensures p.location.None? ==> r.location == it.location
    ensures p.completed.Some? ==> r.completed == p.completed.value
    ensures p.completed.None? ==> r.completed == it.completed
    ensures p.createdAt.Some? ==> r.createdAt == p.createdAt.value
    ensures p.createdAt.None? ==> r.createdAt == it.createdAt
    ensures p.previewImage.Some? ==> r.previewImage == p.previewImage
    ensures p.previewImage.None? ==> r.previewImage == it.previewImage
  {
    ListItem(
      p.id.GetOr(it.id),
      p.title.GetOr(it.title),
      p.url.OrElse(it.url),
      p.description.OrElse(it.description),
      p.tags.GetOr(it.tags),
      p.location.OrElse(it.location),
      p.completed.GetOr(it.completed),
      p.createdAt.GetOr(it.createdAt),
      p.previewImage.OrElse(it.previewImage))
  }

  /** Some tag embedded in the item carries the id `tagId`. */
  predicate HasTagId(it: ListItem, tagId: string) {
    exists k :: 0 <= k < |it.tags| && it.tags[k].id == tagId
  }

  function WithTag(tagId: string): ListItem -> bool {
    (it: ListItem) => HasTagId(it, tagId)
  }

  predicate IsCompleted(it: ListItem) {
    it.completed
  }

  predicate IsActive(it: ListItem) {
    !it.completed
  }

  function HasItemId(itemId: string): ListItem -> bool {
    (it: ListItem) => it.id == itemId
  }

  function ItemIdIsNot(itemId: string): ListItem -> bool {
    (it: ListItem) => it.id != itemId
  }

  function TagIdIsNot(tagId: string): Tag -> bool {
    (t: Tag) => t.id != tagId
  }

  /**
    The completion toggle of the list pages: every item with id `itemId` has
    its `completed` flag flipped, and nothing else changes.
   */
  function ToggleCompleted(items: seq<ListItem>, itemId: string): (r: seq<ListItem>)
    ensures |r| == |items|
    ensures forall i :: 0 <= i < |r| ==>
      && r[i].completed == (items[i].completed != (items[i].id == itemId))
      && r[i].(completed := items[i].completed) == items[i]
  {
    seq(|items|, i requires 0 <= i < |items| =>
      if items[i].id == itemId then items[i].(completed := !items[i].completed) else items[i])
  }

  /** Toggling the same id twice restores the items. */
  lemma ToggleCompletedTwice(items: seq<ListItem>, itemId: string)
    ensures ToggleCompleted(ToggleCompleted(items, itemId), itemId) == items
  {
    var once := ToggleCompleted(items, itemId);
    var twice := ToggleCompleted(once, itemId);
    forall i | 0 <= i < |items|
      ensures twice[i] == items[i]
    {
      assert once[i].id == items[i].id;
    }
  }
}
