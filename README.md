# LinkNest data layer and pages, in Dafny

LinkNest keeps **lists** of saved links and places (**items**) and
cross-cutting **tags**. This project models three parts of it.

- **The local data layer** (`src/lib/dataManager.ts`). It holds three stored
  collections: lists, items and tags. It has read projections that recompute
  each list's `itemCount` and each tag's `count` from the items. It has the
  create, update and delete operations, and the Google Maps link importer
  that turns a place link into an item draft.
- **The pages**:
  - the list detail page (search, the active/completed split, the
    completion toggle, saving from the item dialog);
  - the cross-list search page (text query, tag filter, "show completed");
  - the lists overview (name search, sorting, adding a list);
  - the tags overview (name search, grouping by first letter);
  - the single-tag page (loading by tag id, toggle, delete).
- **The add/edit item dialog.** This covers its tag editor and its save payload.

Module by module:

- `DataManager` is imperative. Its `Store` class has one field per stored
  collection, and each method reads, changes and writes back whole
  collections. Each method is proved against specification functions, which
  are the read projections and `ListUpdate`.
- The pages and the dialog are mostly pure state transformers over a
  page-state datatype. The parts that work step by step are methods:
  - `SearchPage.PerformSearch` narrows the results one filter at a time, and
    the search page's three handlers call it;
  - `TagsPage.BuildGroups` is the grouping loop, and `TagsPage.GroupTags`
    calls it;
  - the lists page sort (`ListsPage.HandleSort`) and the tag-group key sort
    (`TagsPage.SortKeys`) copy into an array and run a verified insertion sort
    (`Seqs.SortInPlace`).
- `GoogleMaps` models the importer's string scanning. It covers the `/place/`
  segment, `+` to space, and the `@lat,lng` pattern.
- `Seqs`, `Text`, `Types` and `Wrappers` hold shared definitions:
  - JavaScript's `filter`, `sort`, and `find`/`findIndex` (both through `Seqs.FindIndex`);
  - `toLowerCase`, `includes`, `trim` and `Date.now().toString()`;
  - the record types of `src/lib/types.ts`.

Behaviour of the code that is easy to misread:

- A created item's id is the list id followed directly by the clock digits,
  with no separator.
- Deleting a tag does not remove it from items.
- The importer never calls the network.
- A failing percent-decode yields "no draft", like any other failure inside the importer.
- An item's owning list is decided only by the first character of its id
  (`"1"` to `"4"`). So a list with any other id always counts 0 items.

## Model

| member | source | states |
|---|---|---|
| DataManager.ItemListId | src/lib/dataManager.ts:164-170 | The owning list is one of "1" to "4". It is the id's first character when that is one of those digits, and "1" otherwise. |
| DataManager.ItemsByListId | src/lib/dataManager.ts:153-156 | An item is returned iff it is stored and its id maps to the requested list. |
| DataManager.ItemsByTagId | src/lib/dataManager.ts:158-161 | An item is returned iff it is stored and embeds a tag with the requested id. |
| DataManager.AllLists | src/lib/dataManager.ts:125-134 | Same length and lists. Every field but `itemCount` is kept, and `itemCount` is the number of items owned by that list. |
| DataManager.UnknownListCountsZero | src/lib/dataManager.ts:125-134 | A list whose id is not "1" to "4" always shows 0 items. |
| DataManager.OwnershipPartition | src/lib/dataManager.ts:164-170 | Every item is owned by exactly one of the lists "1" to "4": the four counts add up to the number of items. |
| DataManager.AllListsIdempotent | src/lib/dataManager.ts:125-134 | Projecting twice equals projecting once. |
| DataManager.CreatedItemOwnedByKnownList | src/lib/dataManager.ts:219-237 | An item created for list "1" to "4" is counted in that list. |
| DataManager.CreatedListNeverOwns | src/lib/dataManager.ts:173-184 | A list whose timestamp id has two or more digits never owns an item created under it, because ownership reads only the id's first character. |
| DataManager.TagCount | src/lib/dataManager.ts:140-151 | The count of items carrying a tag is at most the number of items. |
| DataManager.TagCountIsItemsWithTag | src/lib/dataManager.ts:140-151 | The count equals the length of the items-by-tag query. |
| DataManager.TagCountConcat | src/lib/dataManager.ts:140-151 | Counting over two item sequences adds up. |
| DataManager.UntaggingDecrementsCount | src/lib/dataManager.ts:239-261 | Removing a tag from one item that carried it lowers that tag's count by exactly one. |
| DataManager.AllTags | src/lib/dataManager.ts:140-151 | Same tags in the same order. Id and name are kept, and `count` is the recomputed count. |
| DataManager.AllTagsIdempotent | src/lib/dataManager.ts:309-312 | Refreshing tag counts twice equals refreshing once. |
| DataManager.TagCountBounded | src/lib/dataManager.ts:140-151 | Every projected count lies between 0 and the number of items. |
| DataManager.StoredTagIsFoundAgain | src/lib/dataManager.ts:282-297 | A stored tag is found by a create with the same name in any letter case, so creating it again stores nothing. |
| DataManager.CreateTagTwice | src/lib/dataManager.ts:282-297 | Creating a tag and then one whose name differs only in letter case returns the same tag (same id and name) both times. |
| DataManager.ListUpdate | src/lib/dataManager.ts:186-201 | No list with the id gives no result and nothing changed. Otherwise the first list with the id is merged with the patch and stamped, and the projected lists with that one replaced are stored. |
| DataManager.TouchOnlyStamps | src/lib/dataManager.ts:186-201 | An empty patch returns the list with the new `lastModified`, keeps the number of lists, and stores counts that are current. |
| DataManager.DeleteListKeepsCountsCurrent | src/lib/dataManager.ts:203-216 | After a list and its items are removed, every remaining list's stored count is current. |
| DataManager.Store.CreateList | src/lib/dataManager.ts:173-184 | Prepends the draft with a timestamp id and `lastModified` now, in front of the projected lists. Items and tags are unchanged. |
| DataManager.Store.UpdateList | src/lib/dataManager.ts:186-201 | Result and stored lists are exactly `ListUpdate`. Items and tags are unchanged. |
| DataManager.Store.DeleteList | src/lib/dataManager.ts:203-216 | Succeeds iff the id is stored, and nothing changes on failure. On success the list and exactly the items it owns are removed, the counts are left current, and tags are kept. |
| DataManager.Store.UpdateTagCounts | src/lib/dataManager.ts:309-312 | Stores the tag projection; afterwards tag counts are current. |
| DataManager.Store.CreateItem | src/lib/dataManager.ts:219-237 | Prepends the draft with id listId+clock digits and `createdAt` now. It touches the list through `ListUpdate`, and tag counts are current afterwards. |
| DataManager.Store.UpdateItem | src/lib/dataManager.ts:239-261 | Gives no result iff no item has the id, and then nothing changes. Otherwise the first such item is merged and replaced, its owning list is touched, and tag counts are current. |
| DataManager.Store.DeleteItem | src/lib/dataManager.ts:263-279 | Succeeds iff an item has the id, and nothing changes on failure. Otherwise every such item is removed, its owning list is touched, and tag counts are current. |
| DataManager.Store.CreateTag | src/lib/dataManager.ts:282-297 | An existing tag with the same name in any case is returned and nothing is stored. Otherwise a new count-0 tag is added, and the stored tags are a permutation of the projection plus it, sorted by name. |
| DataManager.Store.DeleteTag | src/lib/dataManager.ts:299-307 | Succeeds iff a tag has the id. Only the tag records are filtered; lists and items are unchanged. |
| GoogleMaps.PlaceSegment | src/lib/dataManager.ts:322-327 | A found segment is non-empty and contains no '/'. |
| GoogleMaps.PlaceSegmentRoundTrip | src/lib/dataManager.ts:322-327 | For a path built as prefix + "/place/" + name + rest, the segment read back is exactly name. |
| GoogleMaps.CoordsAtIsDecimal | src/lib/dataManager.ts:331 | Both coordinates read after an '@' are an optional '-', digits, '.' and digits, as the link pattern requires. |
| GoogleMaps.LocationRoundTrip | src/lib/dataManager.ts:331-334 | A link built as prefix + "@" + lat + "," + lng + rest yields exactly "lat, lng". |
| GoogleMaps.ExtractPlace | src/lib/dataManager.ts:315-347 | No draft iff there is no parsed path or decoding the segment fails. A draft keeps the link, has the parsed location, the import description and no tags. Its title is the decoded segment with '+' turned into spaces, or "New Place" when that is empty or there is no segment. |
| GoogleMaps.SpacesForPluses | src/lib/dataManager.ts:325 | Every '+' becomes a space and every other character is kept, so no '+' remains. |
| GoogleMaps.LocationAt | src/lib/dataManager.ts:330-334 | The location is "lat, lng" read by the scanner `CoordsAt` at the leftmost offset where it reads a pair. |
| GoogleMaps.LocationEmptyIffNoPair | src/lib/dataManager.ts:330-334 | The location is empty exactly when the scanner `CoordsAt` reads a pair at no offset. |
| GoogleMaps.CoordsAtComplete | src/lib/dataManager.ts:331 | Wherever the pattern `@(-?\d+\.\d+),(-?\d+\.\d+)` (stated independently as `PairFrom`) matches, the scanner reads a pair there. The first coordinate ends at the same ',' and the second runs as far as its digits go. |
| GoogleMaps.CoordsAtIffPattern | src/lib/dataManager.ts:331 | The scanner reads a pair at an offset exactly when the pattern matches there. |
| GoogleMaps.LocationOfFirstMatch | src/lib/dataManager.ts:330-334 | At the leftmost pattern match, the location is its first group, ", ", and its greedy second group. |
| GoogleMaps.LocationEmptyIffNoMatch | src/lib/dataManager.ts:330-334 | The location is empty exactly when the pattern matches nowhere in the link. |
| GoogleMaps.PlainLinkGivesDefaults | src/lib/dataManager.ts:336-342 | A link without a place segment gives the default title "New Place". |
| Types.MergeList | src/lib/dataManager.ts:192-196 | Each field present in the patch replaces the list's field; each absent field is kept. |
| Types.MergeItem | src/lib/dataManager.ts:245-248 | Each field present in the patch replaces the item's field; each absent field is kept. |
| Types.ToggleCompleted | src/pages/ListDetailPage.tsx:159-165 | Only items with the id flip `completed`; every other field and item is kept. |
| Types.ToggleCompletedTwice | src/pages/TagItemsPage.tsx:76-80 | Toggling one id twice restores the items. |
| ListDetailPage.SplitPartition | src/pages/ListDetailPage.tsx:125-127 | The active and completed lists split the shown items: the multisets add up, active items are open and completed ones are done. |
| ListDetailPage.Load | src/pages/ListDetailPage.tsx:112-132 | Without a route id nothing happens. An unknown list navigates back with the state unchanged. Otherwise the route id is kept, the first list with that id and its items (or none) are shown, and the split is consistent. |
| ListDetailPage.HandleSearch | src/pages/ListDetailPage.tsx:134-152 | An empty query shows all items. Otherwise an item is shown iff its title, description, a tag name or location contains the query ignoring case. Items are kept and the split is consistent. |
| ListDetailPage.EmptyQueryMatchesAll | src/pages/ListDetailPage.tsx:134-140 | Every item matches the empty query, so the reset branch agrees with filtering. |
| ListDetailPage.HandleToggleComplete | src/pages/ListDetailPage.tsx:159-171 | Flips completion only on the id, shows all items and keeps the split consistent. |
| ListDetailPage.ToggleTwiceRestoresItems | src/pages/ListDetailPage.tsx:159-171 | Toggling the same item twice restores the items. |
| ListDetailPage.NewItem | src/pages/ListDetailPage.tsx:180-189 | A new item has the clock digits as id, is not completed, has `createdAt` now, and takes title/tags or their defaults from the patch. |
| ListDetailPage.MergeMatching | src/pages/ListDetailPage.tsx:194-196 | Same length. Every item whose id is the patch's id is merged with the patch; every other item is kept in place. |
| ListDetailPage.HandleSaveItem | src/pages/ListDetailPage.tsx:173-203 | Without a list id nothing happens. A patch without an id prepends a new item. Otherwise every item with that id is merged. All items are then shown and the split is consistent. |
| ListDetailPage.IdOnlyPatchKeepsItems | src/pages/ListDetailPage.tsx:193-196 | A patch carrying only an id leaves every item as it was. |
| SearchPage.PerformSearch | src/pages/SearchPage.tsx:88-113 | Results are the source items in order that match the query on title, description or location, carry some selected tag (when any are selected), and are not completed when completed items are hidden. |
| SearchPage.NoFiltersReturnsEverything | src/pages/SearchPage.tsx:88-113 | With no query, no tags and completed shown, every item is a result. |
| SearchPage.ToggleTag | src/pages/SearchPage.tsx:73-76 | The tag's membership flips, other tags' membership is kept, and a new tag is appended at the end. |
| SearchPage.ToggleTagTwiceKeepsMembership | src/pages/SearchPage.tsx:73-76 | Toggling a tag twice gives back the same set of selected tags. |
| SearchPage.ToggleTagTwiceRestores | src/pages/SearchPage.tsx:73-76 | Selecting an unselected tag and deselecting it again gives back exactly the same selection sequence. |
| SearchPage.HandleSearch | src/pages/SearchPage.tsx:68-71 | Stores the query and recomputes the results with the current tags and completion setting. |
| SearchPage.HandleToggleTag | src/pages/SearchPage.tsx:73-80 | Toggles the tag and recomputes the results with the new selection. |
| SearchPage.HandleToggleShowCompleted | src/pages/SearchPage.tsx:82-86 | Flips the completion setting and recomputes the results with it. |
| ListsPage.HandleSearch | src/pages/ListsPage.tsx:61-71 | An empty query shows all lists. Otherwise a list is shown iff its name contains the query ignoring case; nothing else changes. |
| ListsPage.NameOrder | src/pages/ListsPage.tsx:77-78 | The alphabetical comparator is a total preorder. |
| ListsPage.HandleSort | src/pages/ListsPage.tsx:73-84 | The shown lists are a permutation of the old ones, sorted by name or newest first. "Custom" keeps the order, and the option is recorded. |
| ListsPage.NewList | src/pages/ListsPage.tsx:89-94 | The new list has the clock digits as id, the typed name, 0 items and `lastModified` now. |
| ListsPage.HandleAddList | src/pages/ListsPage.tsx:86-101 | A blank name changes nothing. Otherwise the new list is in front of the old ones, all lists are shown, and the name is cleared and the dialog closed. |
| ListsPage.AddRefusedIffAllSpace | src/pages/ListsPage.tsx:86-87 | The add is refused exactly when the name is all white space. |
| TagsPage.HandleSearch | src/pages/TagsPage.tsx:31-41 | An empty query shows all tags. Otherwise a tag is shown iff its name contains the query ignoring case. |
| TagsPage.GroupKey | src/pages/TagsPage.tsx:45 | The key is empty iff the name is empty; otherwise it is the name's first character upper-cased. |
| TagsPage.GroupKeyIgnoresCase | src/pages/TagsPage.tsx:45 | Names whose first letters differ only in letter case fall in the same group. |
| TagsPage.KeyOrder | src/pages/TagsPage.tsx:53 | The default string sort order on group keys is a total preorder. |
| TagsPage.SumSizesPermutation | src/pages/TagsPage.tsx:53 | Reordering the group keys does not change the total number of grouped tags. |
| TagsPage.BuildGroups | src/pages/TagsPage.tsx:44-51 | Each key is the upper-cased first letter of some shown tag and occurs once. Each group holds exactly those tags in order, and the groups hold every shown tag. |
| TagsPage.SortKeys | src/pages/TagsPage.tsx:53 | The keys are sorted and are a permutation of the input. |
| TagsPage.GroupTags | src/pages/TagsPage.tsx:43-53 | The groups' keys are exactly the shown tags' first letters, each group is the shown tags with that letter in order, and the sorted keys list each group once in order. The group sizes add up to the number of shown tags. |
| TagItemsPage.Load | src/pages/TagItemsPage.tsx:57-73 | Without a tag id nothing happens. Otherwise the shown items are exactly those carrying the tag, and the tag is the record found on the first shown item (kept when none). |
| TagItemsPage.HandleToggleComplete | src/pages/TagItemsPage.tsx:76-80 | Only items with the id flip `completed`. |
| TagItemsPage.ToggleTwiceRestoresItems | src/pages/TagItemsPage.tsx:76-80 | Toggling the same item twice restores the items. |
| TagItemsPage.HandleDeleteItem | src/pages/TagItemsPage.tsx:83-85 | An item stays iff its id differs, in order. |
| TagItemsPage.DeleteShrinksIffPresent | src/pages/TagItemsPage.tsx:83-85 | The shown items shrink exactly when one has that id. |
| AddEditListItem.Init | src/components/lists/AddEditListItem.tsx:19-24 | The fields start from the edited item (absent text as empty) or empty, with an empty tag input. |
| AddEditListItem.HandleAddTag | src/components/lists/AddEditListItem.tsx:26-36 | A blank input changes nothing. Otherwise one tag with the trimmed name and the clock id is appended and the input cleared; nothing else changes. |
| AddEditListItem.AddedTagNameIsTrimmed | src/components/lists/AddEditListItem.tsx:26-33 | An added tag's name is non-empty and has no white space at either end. |
| AddEditListItem.RemoveTag | src/components/lists/AddEditListItem.tsx:38-40 | The tags are exactly those with a different id, in their order; the other fields are kept. |
| AddEditListItem.AddThenRemoveRestoresTags | src/components/lists/AddEditListItem.tsx:26-40 | Adding a tag and removing it by its fresh id gives back the tags. |
| AddEditListItem.HandleSave | src/components/lists/AddEditListItem.tsx:42-56 | Ignored iff the title is blank. Otherwise the payload has no id, has the fields as typed, and takes completion and `createdAt` from the item or false/now. |
| AddEditListItem.OpenThenSaveRoundTrip | src/components/lists/AddEditListItem.tsx:19-56 | For an item with a non-blank title and `url`, `description` and `location` all present, opening the dialog and saving untouched merges back to the same item. An absent optional field would come back as "", so the round trip needs them present. |
| AddEditListItem.SaveAddsNewItemOnListPage | src/components/lists/AddEditListItem.tsx:45-53 | Because the payload has no id, the list detail page always prepends a new, not completed item, even when an item was being edited. |

## Left out

- Local storage, JSON (de)serialisation and date rehydration (src/lib/dataManager.ts:99-122) are not modelled. The store's fields are the collections, and a read of an absent key is the store's initial contents.
- The seed and mock data are not modelled. Each page takes its item and list source as a parameter.
- Clock readings (`Date.now()`, `new Date()`) are the parameter `now`. Dates are integers.
- The `URL` constructor is a parameter: the link's pathname, or none when parsing fails. `decodeURIComponent` is an abstract function that may fail. The model does not capture their exact behaviour.
- `localeCompare` and the default `sort` are both modelled as lexicographic order of Unicode scalar values (`Text.LexLe`). Locale collation is not modelled. Outside the Basic Multilingual Plane, this order can differ from the default sort's UTF-16 code-unit order.
- Strings are sequences of Unicode scalar values, not of UTF-16 code units. So `charAt(0)` (src/pages/TagsPage.tsx:45) of a name that starts with a character outside the Basic Multilingual Plane is the whole character in the model. The source gives half a surrogate pair there.
- Sort stability is not modelled, because `SortInPlace` proves only sortedness and permutation. This affects `ListsPage.HandleSort` and `DataManager.Store.CreateTag`.
- Case folding covers ASCII letters only.
- `trim` removes the ECMAScript white-space and line-terminator characters (`Text.IsSpace`): tab, line feed, vertical tab, form feed, carriage return, the Unicode space separators, U+2028, U+2029 and U+FEFF.
- A patch key that is present but `undefined` is not modelled. Absent fields are `None`.
- Rendering, routing and input setters are not modelled. Navigation is reduced to the `navigateBack` flag of `ListDetailPage.Load`. `handleDeleteList` on the list detail page is not modelled, because it only navigates.
- The list detail page's view switches are not modelled: the item dialog (`isAddItemOpen`), the delete dialog (`isDeleteModalOpen`) and the completed-section toggle (`showCompleted`), src/pages/ListDetailPage.tsx:108-110. The lists page's add dialog is modelled (`ListsPage.PageState.isAddListOpen`). So is the item dialog's close after a save (`AddEditListItem.SaveOutcome.SavedAndClosed`).
- The bodies of the two loading effects are modelled (`ListDetailPage.Load`, `TagItemsPage.Load`). When React runs them again (the dependency lists at src/pages/ListDetailPage.tsx:132 and src/pages/TagItemsPage.tsx:73) is not.
- The async wrapper around the importer is not modelled. The importer is a pure function of its inputs.
- ListDetailPage.HandleSaveItem: the page never opens the dialog on an existing item, and the dialog's payload carries no id. So the update branch is modelled as written but is not reached from the dialog.
