# Smart bookmark manager: verified model of the sync and deduplication core

This project models the sequential logic under the browser-extension plumbing of the
smart bookmark manager:

- the background script's **tree flattener** (`flattenBookmarks`), which walks the native
  bookmark forest depth-first in pre-order and emits `{id, title, url}` for every node whose
  `url` is truthy, recursing into `children` whenever they are present;
- the **duplicate detector** (`findDuplicates`), one pass with a url-to-first-record map that
  reports every later record with an already-seen url as a pair `[first, current]`;
- the **enriched record store**: the `bookmarks` and `duplicateBookmarks` storage keys and the
  read-modify-write operations of the create, remove and change listeners, plus the write rule
  of the periodic duplicate scan (write and notify only when at least one group was found);
- the popup's own **flattener** (same traversal, with the default enrichment fields), its
  **search filter**, and the **category default**.

Modules: `Types` (data), `Flatten`, `Duplicates`, `Store`, `Popup`, one file each.
Loops of the source are methods with loop invariants (`Flatten.Traverse`, `Popup.Traverse`,
`Duplicates.FindDuplicates`), each proved equal to a specification function whose properties
are lemmas. Storage is a class (`Store.BookmarkStore`) whose fields are the storage keys
(`None` while a key was never written, so `result.bookmarks || []` is explicit), a log of the
storage writes, and a log of the `DUPLICATES_FOUND` messages sent. The popup's module-level
`bookmarks` and `categories` are the fields of `Popup.PopupState`.

Modelling decisions:

- A url is truthy when it is present and not the empty string (`Types.HasUrl`).
- `children` is either absent or a list, as the `Children` datatype says. An empty list is
  traversed and yields nothing, exactly as in the source.
- `toLowerCase` is a parameter `lower: string -> string` about which nothing is assumed.
- `changeInfo` is a `Store.Change`: every key is either absent or supplied, and the object
  spread overwrites exactly the supplied keys (`Store.Merge`).
- Create copies the node's `url` as it is. A folder therefore gets a record without a url.
- Remove filters out every record with the id (background.js:36), not only one. Since create
  appends even when the id is already stored, create followed by remove is a no-op only when
  the id was not stored before; `Store.CreateThenRemove` proves the general law.

## Model

| member | source | states |
|---|---|---|
| Flatten.Traverse | background.js:97-110 | the loop that pushes records and recurses into children appends exactly the specification flattening of the visited siblings to what was already accumulated |
| Flatten.TraverseStep | background.js:99-108 | one loop iteration (own record if the url is truthy, then the children) extends the flattening of the first i siblings to the first i + 1 |
| Flatten.FlattenBookmarks | background.js:94-114 | the returned list is the depth-first pre-order flattening of the forest |
| Flatten.FlattenIsPreOrderLeaves | background.js:97-110 | the flattening is exactly the records of the pre-order node list, one per node with a truthy url, none for folders, nothing twice |
| Flatten.NodeIsPreOrderLeaves | background.js:99-108 | a node's records are its own record (if its url is truthy) followed by its descendants' records in pre-order |
| Flatten.FlattenMembership | background.js:99-104 | a record is emitted iff it copies id, title and url of some tree node with a truthy url; every emitted url is non-empty |
| Flatten.FlattenAppend | background.js:98-109 | the records of earlier siblings come before those of later siblings |
| Flatten.ExampleFlatten | background.js:94-114 | the tree `[a, folder[b, c], d]` flattens to `[a, b, c, d]` |
| Duplicates.FindDuplicates | background.js:73-92 | the single pass with the url map returns exactly the occurrence-defined report |
| Duplicates.FirstIndex | background.js:86-88 | the record the map keeps for a url is the earliest one carrying it |
| Duplicates.ScanSeen | background.js:78-85 | a record whose url is already in the map adds one group `[first, current]` and leaves the map unchanged |
| Duplicates.ScanNew | background.js:86-88 | a record with a new url is stored in the map and adds no group |
| Duplicates.DupsArePairs | background.js:77-85 | every group has exactly two instances sharing the group's url: the earliest record with that url, then a strictly later record |
| Duplicates.DupsCount | background.js:74-91 | the number of groups is the number of records minus the number of distinct urls |
| Duplicates.DupsEmptyIff | background.js:74-91 | the report is empty exactly when no two records share a url (including the empty input) |
| Duplicates.DupsPrefix | background.js:77-89 | groups appear in discovery order: the report for a prefix of the input is a prefix of the full report |
| Duplicates.ExampleOnePair | background.js:73-92 | `[x, y, x]` gives one group pairing the first and third records |
| Duplicates.ExampleThreeCopies | background.js:77-85 | three records with one url give two groups, both led by the first record |
| Store.BookmarkStore.SyncBookmark | background.js:15-31 | create appends one record with category "Uncategorized", no tags and empty notes, even when the id is already stored, and writes the bookmarks key |
| Store.Removed | background.js:36 | the result is a subsequence of the input that keeps every record whose id differs, with all its copies, and no record with the id |
| Store.BookmarkStore.RemoveBookmark | background.js:33-39 | remove writes back the filtered list, and nothing else changes |
| Store.RemoveAbsent | background.js:35-37 | removing an id no record holds leaves the list unchanged |
| Store.RemoveIdempotent | background.js:36 | removing an id twice is the same as removing it once |
| Store.CreateThenRemove | background.js:15-37 | create then remove equals remove alone, so it is a no-op when the id was absent |
| Store.FindIndex | background.js:44 | the result is the first position holding the id, or -1 exactly when no record holds it |
| Store.Updated | background.js:44-52 | update keeps the length and every record except the first match, and keeps the whole list when no record matches |
| Store.UpdateMergesSuppliedKeys | background.js:47-50 | in the first matching record every supplied key takes the supplied value and every other field keeps its value |
| Store.UpdateCategoryOnly | background.js:44-52 | a change supplying only a category changes only that field of the first matching record |
| Store.UpdateIdempotent | background.js:44-52 | applying a change twice equals applying it once, unless the change moves the record to another id |
| Store.BookmarkStore.UpdateBookmark | background.js:41-54 | with no matching record nothing at all changes and nothing is written; otherwise the updated list is written once |
| Store.BookmarkStore.FindDuplicateBookmarks | background.js:57-71 | the stored report is replaced and the message is sent only when the scan finds a group; otherwise no write and no message |
| Popup.Traverse | popup.js:34-50 | the popup's loop appends the enriched records of the specification flattening, in order |
| Popup.ToBookmark | popup.js:37-44 | the pushed record is the background record with the default enrichment fields |
| Popup.FlattenBookmarks | popup.js:31-54 | same records and order as the background flattener, each with id, title and url copied, category "Uncategorized", no tags, empty notes and a non-empty url |
| Popup.IncludesIffOccurs | popup.js:115-117 | `includes` holds exactly when the term occurs at some position |
| Popup.IncludesEmpty | popup.js:113-117 | every string includes the empty string |
| Popup.Search | popup.js:114-118 | the filter result is a subsequence of the bookmarks, and each bookmark occurs in it exactly as often as in the input when it matches and never otherwise |
| Popup.EmptyTermKeepsAll | popup.js:113-118 | an empty search term keeps every bookmark, in order |
| Popup.LoadedCategories | popup.js:59 | an absent key gives `["Uncategorized"]`, a stored list is kept as is, and the result is empty only for a stored empty list |
| Popup.PopupState.LoadBookmarks | popup.js:23-28 | the popup's list becomes the enriched flattening of the tree, and every record has a url |
| Popup.PopupState.LoadCategories | popup.js:57-62 | the popup's category list becomes the stored list or the default |
| Popup.PopupState.OnSearchInput | popup.js:112-120 | the handler lowercases the input once and returns the filter over the loaded bookmarks |

## Left out

- Listener wiring and asynchrony (background.js:2-12, 120): each chrome callback is one method
  call. Interleavings of concurrent read-modify-write callbacks are not modelled.
- The hourly `setInterval` schedule (background.js:117): wall-clock time. The scan itself is
  `Store.BookmarkStore.FindDuplicateBookmarks`.
- The export workflow (background.js:119-144): `Date`, JSON formatting, `Blob`, object URLs and
  downloads are I/O. Because it reads only the `bookmarks` key, the exported `categories` is
  always the empty list.
- Storage failures: every storage read and write is assumed to succeed, as the source assumes.
- DOM rendering, the theme toggle and `isDarkMode` (popup.js:4, 65-95, 122-142): presentation.
- Drag and drop (popup.js:98-109): it uses the external Sortable library and calls
  `updateBookmarkOrder`, which is not part of this model.
- The Unicode semantics of `toLowerCase`: it is an arbitrary function parameter.
- Popup.Search: requires every bookmark to carry a url. In the source a bookmark without a url
  makes `toLowerCase` throw when its title does not match (the `||` short-circuits otherwise); the popup's bookmarks always come from its flattener, which guarantees one.
- Store.Change: a key supplied with the value `undefined` is not distinguished from an absent key.
