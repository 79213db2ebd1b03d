/**
  The local data layer: three stored collections (lists, items, tags), the
  read projections that recompute `itemCount` and `count`, and the create,
  update and delete operations over them.

  Storage is the three fields of `Store`; a read of an absent key, which
  returns the seed data, is whatever the store was constructed with. Clock
  readings are the parameter `now`.
 */
module DataManager {
  import opened Wrappers
  import opened Seqs
  import opened Text
  import opened Types

  /** The list ids the ownership rule can produce. */
  const KnownListIds: set<string> := {"1", "2", "3", "4"}

  /**
    The list an item belongs to, decided by the first character of its id:
    "2", "3" or "4" when the id starts with that digit, "1" otherwise.
   */
  function ItemListId(itemId: string): (r: string)
    ensures r in KnownListIds
    ensures r != "1" ==> IsPrefix(r, itemId)
    ensures |itemId| > 0 && itemId[0] in "1234" ==> r == itemId[..1]
  {
    if IsPrefix("1", itemId) then "1"
    else if IsPrefix("2", itemId) then "2"
    else if IsPrefix("3", itemId) then "3"
    else if IsPrefix("4", itemId) then "4"
    else "1"
  }

  function BelongsTo(listId: string): ListItem -> bool {
    (it: ListItem) => ItemListId(it.id) == listId
  }

  function BelongsElsewhere(listId: string): ListItem -> bool {
    (it: ListItem) => ItemListId(it.id) != listId
  }

  /** The items of one list, in stored order. */
  function ItemsByListId(items: seq<ListItem>, listId: string): (r: seq<ListItem>)
    ensures forall x :: x in r <==> x in items && ItemListId(x.id) == listId
  {
    Filter(items, BelongsTo(listId))
  }

  /** The items carrying a tag, in stored order. */
  function ItemsByTagId(items: seq<ListItem>, tagId: string): (r: seq<ListItem>)
    ensures forall x :: x in r <==> x in items && HasTagId(x, tagId)
  {
    Filter(items, WithTag(tagId))
  }

  /** The read projection of the lists: each `itemCount` recomputed from the items. */
  function AllLists(lists: seq<List>, items: seq<ListItem>): (r: seq<List>)
    ensures |r| == |lists|
    ensures forall i :: 0 <= i < |r| ==>
      && r[i].itemCount == |ItemsByListId(items, lists[i].id)|
      && r[i].(itemCount := lists[i].itemCount) == lists[i]
  {
    seq(|lists|, i requires 0 <= i < |lists| =>
      lists[i].(itemCount := |ItemsByListId(items, lists[i].id)|))
  }

  /** A list whose id is not "1" to "4" owns no item, so its projected count is 0. */
  lemma UnknownListCountsZero(lists: seq<List>, items: seq<ListItem>, i: int)
    requires 0 <= i < |lists| && lists[i].id !in KnownListIds
    ensures AllLists(lists, items)[i].itemCount == 0
  {
    FilterDropsAll(items, BelongsTo(lists[i].id));
  }

  /** Every item is owned by exactly one of the lists "1" to "4". */
  lemma {:induction false} OwnershipPartition(items: seq<ListItem>)
    ensures |ItemsByListId(items, "1")| + |ItemsByListId(items, "2")|
          + |ItemsByListId(items, "3")| + |ItemsByListId(items, "4")| == |items|
    decreases |items|
  {
    if items != [] {
      OwnershipPartition(items[1..]);
      var owner := ItemListId(items[0].id);
      assert owner in KnownListIds;
    }
  }

  /** Projecting twice gives the same lists as projecting once. */
  lemma AllListsIdempotent(lists: seq<List>, items: seq<ListItem>)
    ensures AllLists(AllLists(lists, items), items) == AllLists(lists, items)
  {
  }

  /** An item created under list "1" to "4" is owned by that list. */
  lemma CreatedItemOwnedByKnownList(listId: string, now: nat)
    requires listId in KnownListIds
    ensures ItemListId(listId + NatToString(now)) == listId
  {
    assert (listId + NatToString(now))[..1] == listId;
  }

  /**
    A list made by `createList` has a timestamp id of two or more digits, so an
    item created under it is owned by the list named by the timestamp's first digit
    (or by "1") and never by the list itself.
   */
  lemma CreatedListNeverOwns(listNow: nat, itemNow: nat)
    requires listNow >= 10
    ensures var listId := NatToString(listNow);
      ItemListId(listId + NatToString(itemNow)) != listId
  {
    var listId := NatToString(listNow);
    assert |listId| >= 2;
  }

  /** How many items carry the tag: the running sum over the items, left to right. */
  function TagCount(items: seq<ListItem>, tagId: string): (r: nat)
    ensures r <= |items|
    decreases |items|
  {
    if items == [] then 0
    else TagCount(items[..|items| - 1], tagId) + (if HasTagId(items[|items| - 1], tagId) then 1 else 0)
  }

  /** The running sum agrees with the number of items that the tag filter keeps. */
  lemma {:induction false} TagCountIsItemsWithTag(items: seq<ListItem>, tagId: string)
    ensures TagCount(items, tagId) == |ItemsByTagId(items, tagId)|
    decreases |items|
  {
    if items != [] {
      var n := |items| - 1;
      TagCountIsItemsWithTag(items[..n], tagId);
      assert items == items[..n] + [items[n]];
      FilterConcat(items[..n], [items[n]], WithTag(tagId));
    }
  }

  /** The sum splits over a concatenation. */
  lemma {:induction false} TagCountConcat(a: seq<ListItem>, b: seq<ListItem>, tagId: string)
    ensures TagCount(a + b, tagId) == TagCount(a, tagId) + TagCount(b, tagId)
  {
    TagCountIsItemsWithTag(a + b, tagId);
    TagCountIsItemsWithTag(a, tagId);
    TagCountIsItemsWithTag(b, tagId);
    FilterConcat(a, b, WithTag(tagId));
  }

  /** Replacing a tagged item by an untagged one lowers the tag's count by exactly one. */
  lemma UntaggingDecrementsCount(items: seq<ListItem>, k: int, replacement: ListItem, tagId: string)
    requires 0 <= k < |items|
    requires HasTagId(items[k], tagId) && !HasTagId(replacement, tagId)
    ensures TagCount(items[k := replacement], tagId) == TagCount(items, tagId) - 1
  {
    var before, after := items[..k], items[k + 1..];
    assert items == before + [items[k]] + after;
    assert items[k := replacement] == before + [replacement] + after;
    TagCountConcat(before + [items[k]], after, tagId);
    TagCountConcat(before, [items[k]], tagId);
    TagCountConcat(before + [replacement], after, tagId);
    TagCountConcat(before, [replacement], tagId);
    assert [items[k]][..0] == [] && [replacement][..0] == [];
  }

  /** The read projection of the tags: each `count` recomputed from the items. */
  function AllTags(tags: seq<Tag>, items: seq<ListItem>): (r: seq<Tag>)
    ensures |r| == |tags|
    ensures forall i :: 0 <= i < |r| ==>
      && r[i].count == Some(|ItemsByTagId(items, tags[i].id)|)
      && r[i].(count := tags[i].count) == tags[i]
  {
    assert forall i :: 0 <= i < |tags| ==> TagCount(items, tags[i].id) == |ItemsByTagId(items, tags[i].id)| by {
      forall i | 0 <= i < |tags| {
        TagCountIsItemsWithTag(items, tags[i].id);
      }
    }
    seq(|tags|, i requires 0 <= i < |tags| => tags[i].(count := Some(TagCount(items, tags[i].id))))
  }

  /** Writing the projection back and projecting again changes nothing. */
  lemma AllTagsIdempotent(tags: seq<Tag>, items: seq<ListItem>)
    ensures AllTags(AllTags(tags, items), items) == AllTags(tags, items)
  {
  }

  /** Each projected count lies between 0 and the number of items. */
  lemma TagCountBounded(tags: seq<Tag>, items: seq<ListItem>, i: int)
    requires 0 <= i < |tags|
    ensures 0 <= AllTags(tags, items)[i].count.value <= |items|
  {
  }

  function HasListId(listId: string): List -> bool {
    (l: List) => l.id == listId
  }

  function ListIdIsNot(listId: string): List -> bool {
    (l: List) => l.id != listId
  }

  function SameNameIgnoringCase(name: string): Tag -> bool {
    (t: Tag) => Lower(t.name) == Lower(name)
  }

  /** The name order that stored tags are sorted by. */
  predicate TagNameLe(a: Tag, b: Tag) {
    LexLe(a.name, b.name)
  }

  lemma TagNameOrder()
    ensures TotalPreorder(TagNameLe)
  {
    forall a: Tag, b: Tag
      ensures TagNameLe(a, b) || TagNameLe(b, a)
    {
      LexLeTotal(a.name, b.name);
    }
    forall a: Tag, b: Tag, c: Tag | TagNameLe(a, b) && TagNameLe(b, c)
      ensures TagNameLe(a, c)
    {
      LexLeTransitive(a.name, b.name, c.name);
    }
  }

  /**
    Once a tag is stored, creating a tag whose name differs from it only in
    case finds an existing tag, so that second create stores nothing.
   */
  lemma {:induction false} StoredTagIsFoundAgain(tags: seq<Tag>, items: seq<ListItem>, i: int, name: string)
    requires 0 <= i < |tags| && Lower(tags[i].name) == Lower(name)
    ensures FindIndex(AllTags(tags, items), SameNameIgnoringCase(name)).Some?
  {
    var current := AllTags(tags, items);
    assert current[i].name == tags[i].name;
    assert SameNameIgnoringCase(name)(current[i]);
  }

  /**
    The outcome of updating list `listId` with `updates` at time `now`: the
    returned record (None when no list has that id) and the stored lists.
    The lists are read through the projection, the first list with the id is
    merged with the patch and stamped with `now`, and the projection is stored.
   */
  function ListUpdate(lists: seq<List>, items: seq<ListItem>, listId: string, updates: ListPatch, now: Date)
    : (r: (Option<List>, seq<List>))
    ensures r.0.None? <==> forall i :: 0 <= i < |lists| ==> lists[i].id != listId
    ensures r.0.None? ==> r.1 == lists
    ensures r.0.Some? ==>
      exists k ::
        && 0 <= k < |lists| && lists[k].id == listId
        && (forall j :: 0 <= j < k ==> lists[j].id != listId)
        && r.0.value == MergeList(AllLists(lists, items)[k], updates).(lastModified := now)
        && r.1 == AllLists(lists, items)[k := r.0.value]
  {
    var current := AllLists(lists, items);
    match FindIndex(current, HasListId(listId))
    case None => (None, lists)
    case Some(k) =>
      var updated := MergeList(current[k], updates).(lastModified := now);
      (Some(updated), current[k := updated])
  }

  /** An empty patch only stamps `lastModified`; every other stored list keeps its projected record. */
  lemma TouchOnlyStamps(lists: seq<List>, items: seq<ListItem>, listId: string, now: Date)
    requires exists i :: 0 <= i < |lists| && lists[i].id == listId
    ensures var (r, stored) := ListUpdate(lists, items, listId, NoListChanges, now);
      && r.Some? && r.value.id == listId && r.value.lastModified == now
      && |stored| == |lists|
      && AllLists(stored, items) == stored
  {
    var (r, stored) := ListUpdate(lists, items, listId, NoListChanges, now);
    var k :| 0 <= k < |lists| && lists[k].id == listId
      && (forall j :: 0 <= j < k ==> lists[j].id != listId)
      && r.value == MergeList(AllLists(lists, items)[k], NoListChanges).(lastModified := now)
      && stored == AllLists(lists, items)[k := r.value];
    assert r.value.id == AllLists(lists, items)[k].id;
  }

  /**
    Deleting list `listId` after a projection and removing the items it owns
    leaves every remaining list's count current.
   */
  lemma DeleteListKeepsCountsCurrent(lists: seq<List>, items: seq<ListItem>, listId: string)
    ensures var remaining := Filter(AllLists(lists, items), ListIdIsNot(listId));
      AllLists(remaining, Filter(items, BelongsElsewhere(listId))) == remaining
  {
    var current := AllLists(lists, items);
    var remaining := Filter(current, ListIdIsNot(listId));
    var kept := Filter(items, BelongsElsewhere(listId));
    forall i | 0 <= i < |remaining|
      ensures AllLists(remaining, kept)[i] == remaining[i]
    {
      var l := remaining[i];
      assert l in current;
      var j :| 0 <= j < |current| && current[j] == l;
      FilterFilter(items, BelongsElsewhere(listId), BelongsTo(l.id), BelongsTo(l.id));
    }
  }

  /**
    The stored collections. Each operation reads whole collections, changes them
    and writes them back, as the source does through local storage.
   */
  class Store {
    var lists: seq<List>
    var items: seq<ListItem>
    var tags: seq<Tag>

    constructor (initialLists: seq<List>, initialItems: seq<ListItem>, initialTags: seq<Tag>)
      ensures lists == initialLists && items == initialItems && tags == initialTags
    {
      lists, items, tags := initialLists, initialItems, initialTags;
    }

    /** The stored tag counts agree with the stored items. */
    predicate TagCountsCurrent()
      reads this
    {
      AllTags(tags, items) == tags
    }

    /** The stored list counts agree with the stored items. */
    predicate ListCountsCurrent()
      reads this
    {
      AllLists(lists, items) == lists
    }

    /** Prepends a new list with a timestamp id and `lastModified` now; the rest are stored as projected. */
    method CreateList(draft: List, now: nat) returns (newList: List)
      modifies this
      ensures newList == draft.(id := NatToString(now), lastModified := now)
      ensures lists == [newList] + AllLists(old(lists), old(items))
      ensures items == old(items) && tags == old(tags)
    {
      var current := AllLists(lists, items);
      newList := draft.(id := NatToString(now), lastModified := now);
      lists := [newList] + current;
    }

    /** Merges `updates` into the first list with id `listId`; None and nothing stored when there is none. */
    method UpdateList(listId: string, updates: ListPatch, now: Date) returns (r: Option<List>)
      modifies this
      ensures (r, lists) == ListUpdate(old(lists), old(items), listId, updates, now)
      ensures items == old(items) && tags == old(tags)
    {
      var current := AllLists(lists, items);
      var listIndex := FindIndex(current, HasListId(listId));
      if listIndex.None? {
        return None;
      }
      var k := listIndex.value;
      var updated := MergeList(current[k], updates).(lastModified := now);
      current := current[k := updated];
      lists := current;
      r := Some(updated);
    }

    /**
      Removes the list `listId` and every item it owns; false and nothing stored
      when no list has that id. Tags are untouched.
     */
    method DeleteList(listId: string) returns (ok: bool)
      modifies this
      ensures ok <==> exists i :: 0 <= i < |old(lists)| && old(lists)[i].id == listId
      ensures !ok ==> lists == old(lists) && items == old(items)
      ensures ok ==> lists == Filter(AllLists(old(lists), old(items)), ListIdIsNot(listId))
      ensures ok ==> items == Filter(old(items), BelongsElsewhere(listId))
      ensures ok ==> ListCountsCurrent()
      ensures tags == old(tags)
    {
      var current := AllLists(lists, items);
      var filteredLists := Filter(current, ListIdIsNot(listId));
      FilterKeepsLength(current, ListIdIsNot(listId));
      if |filteredLists| == |current| {
        return false;
      }
      var filteredItems := Filter(items, BelongsElsewhere(listId));
      DeleteListKeepsCountsCurrent(lists, items, listId);
      lists := filteredLists;
      items := filteredItems;
      ok := true;
    }

    /** Rewrites the stored tags with their projection, so the stored counts are current. */
    method UpdateTagCounts()
      modifies this
      ensures tags == AllTags(old(tags), items)
      ensures TagCountsCurrent()
      ensures lists == old(lists) && items == old(items)
    {
      tags := AllTags(tags, items);
    }

    /**
      Prepends a new item whose id is `listId` followed directly by the clock
      digits, touches list `listId`, and refreshes the tag counts.
     */
    method CreateItem(listId: string, draft: ListItem, now: nat) returns (newItem: ListItem)
      modifies this
      ensures newItem == draft.(id := listId + NatToString(now), createdAt := now)
      ensures items == [newItem] + old(items)
      ensures lists == ListUpdate(old(lists), items, listId, NoListChanges, now).1
      ensures tags == AllTags(old(tags), items) && TagCountsCurrent()
    {
      newItem := draft.(id := listId + NatToString(now), createdAt := now);
      items := [newItem] + items;
      var _ := UpdateList(listId, NoListChanges, now);
      UpdateTagCounts();
    }

    /**
      Merges `updates` into the first item with id `itemId`, touches the list
      that owns the id, and refreshes the tag counts; None and nothing stored
      when no item has that id.
     */
    method UpdateItem(itemId: string, updates: ItemPatch, now: Date) returns (r: Option<ListItem>)
      modifies this
      ensures r.None? <==> forall i :: 0 <= i < |old(items)| ==> old(items)[i].id != itemId
      ensures r.None? ==> lists == old(lists) && items == old(items) && tags == old(tags)
      ensures r.Some? ==>
        exists k ::
          && 0 <= k < |old(items)| && old(items)[k].id == itemId
          && (forall j :: 0 <= j < k ==> old(items)[j].id != itemId)
          && r.value == MergeItem(old(items)[k], updates)
          && items == old(items)[k := r.value]
      ensures r.Some? ==> lists == ListUpdate(old(lists), items, ItemListId(itemId), NoListChanges, now).1
      ensures r.Some? ==> tags == AllTags(old(tags), items) && TagCountsCurrent()
    {
      var itemIndex := FindIndex(items, HasItemId(itemId));
      if itemIndex.None? {
        return None;
      }
      var k := itemIndex.value;
      var updated := MergeItem(items[k], updates);
      items := items[k := updated];
      var _ := UpdateList(ItemListId(itemId), NoListChanges, now);
      UpdateTagCounts();
      r := Some(updated);
    }

    /**
      Removes every item with id `itemId`, touches the list that owns the id, and
      refreshes the tag counts; false and nothing stored when no item has that id.
     */
    method DeleteItem(itemId: string, now: Date) returns (ok: bool)
      modifies this
      ensures ok <==> exists i :: 0 <= i < |old(items)| && old(items)[i].id == itemId
      ensures !ok ==> lists == old(lists) && items == old(items) && tags == old(tags)
      ensures ok ==> items == Filter(old(items), ItemIdIsNot(itemId))
      ensures ok ==> lists == ListUpdate(old(lists), items, ItemListId(itemId), NoListChanges, now).1
      ensures ok ==> tags == AllTags(old(tags), items) && TagCountsCurrent()
    {
      var filteredItems := Filter(items, ItemIdIsNot(itemId));
      FilterKeepsLength(items, ItemIdIsNot(itemId));
      if |filteredItems| == |items| {
        return false;
      }
      items := filteredItems;
      var _ := UpdateList(ItemListId(itemId), NoListChanges, now);
      UpdateTagCounts();
      ok := true;
    }

    /**
      Returns the first tag whose name equals `tagName` ignoring case, storing
      nothing; otherwise adds a tag with a timestamp id and count 0 and stores
      the projected tags plus the new one, sorted by name.
     */
    method CreateTag(tagName: string, now: nat) returns (tag: Tag)
      modifies this
      ensures var current := AllTags(old(tags), old(items));
        match FindIndex(current, SameNameIgnoringCase(tagName))
        case Some(k) => tag == current[k] && tags == old(tags)
        case None =>
          && tag == Tag(NatToString(now), tagName, Some(0))
          && multiset(tags) == multiset(current + [tag])
          && |tags| == |old(tags)| + 1
          && SortedBy(tags, TagNameLe)
      ensures lists == old(lists) && items == old(items)
    {
      var current := AllTags(tags, items);
      var existing := FindIndex(current, SameNameIgnoringCase(tagName));
      if existing.Some? {
        return current[existing.value];
      }
      tag := Tag(NatToString(now), tagName, Some(0));
      var updatedTags := current + [tag];
      var a := new Tag[|updatedTags|](i requires 0 <= i < |updatedTags| => updatedTags[i]);
      assert a[..] == updatedTags;
      TagNameOrder();
      SortInPlace(a, TagNameLe);
      tags := a[..];
      assert |tags| == |multiset(tags)| == |multiset(updatedTags)| == |updatedTags|;
    }

    /** Removes the tag records with id `tagId`; items keep their embedded copies. */
    method DeleteTag(tagId: string) returns (ok: bool)
      modifies this
      ensures ok <==> exists i :: 0 <= i < |old(tags)| && old(tags)[i].id == tagId
      ensures !ok ==> tags == old(tags)
      ensures ok ==> tags == Filter(AllTags(old(tags), old(items)), TagIdIsNot(tagId))
      ensures lists == old(lists) && items == old(items)
    {
      var current := AllTags(tags, items);
      var filteredTags := Filter(current, TagIdIsNot(tagId));
      FilterKeepsLength(current, TagIdIsNot(tagId));
      if |filteredTags| == |current| {
        return false;
      }
      tags := filteredTags;
      ok := true;
    }
  }

  /** The tag created when no stored tag had a matching name is the only stored tag that matches. */
  lemma NewTagIsOnlyMatch(current: seq<Tag>, stored: seq<Tag>, tag: Tag, name: string, x: Tag)
    requires FindIndex(current, SameNameIgnoringCase(name)).None?
    requires multiset(stored) == multiset(current + [tag])
    requires x in stored && Lower(x.name) == Lower(name)
    ensures x == tag
  {
    forall j | 0 <= j < |current|
      ensures current[j] != x
    {
      assert !SameNameIgnoringCase(name)(current[j]);
    }
    assert x in multiset(current + [tag]);
  }

  /**
   * Creating a tag and then creating one whose name differs only in letter case
   * gives back the same tag: the second create finds the first one's record.
   */
  method CreateTagTwice(s: Store, name: string, again: string, now: nat, later: nat)
    returns (first: Tag, second: Tag)
    requires Lower(again) == Lower(name)
    modifies s
    ensures second.id == first.id && second.name == first.name
  {
    ghost var current := AllTags(s.tags, s.items);
    ghost var found := FindIndex(current, SameNameIgnoringCase(name));
    first := s.CreateTag(name, now);
    ghost var stored := s.tags;
    ghost var i: nat;
    if found.Some? {
      i := found.value;
    } else {
      assert first in multiset(stored);
      i :| i < |stored| && stored[i] == first;
    }
    assert Lower(stored[i].name) == Lower(again);
    StoredTagIsFoundAgain(stored, s.items, i, again);
    ghost var next := AllTags(stored, s.items);
    ghost var k := FindIndex(next, SameNameIgnoringCase(again)).value;
    second := s.CreateTag(again, later);
    assert second == next[k];
    if found.Some? {
      assert next == current;
      assert SameNameIgnoringCase(name)(current[k]);
      assert !(k < found.value);
      assert SameNameIgnoringCase(again)(current[found.value]);
      assert !(found.value < k);
    } else {
      assert next[k].name == stored[k].name && next[k].id == stored[k].id;
      NewTagIsOnlyMatch(current, stored, first, name, stored[k]);
    }
  }
}
