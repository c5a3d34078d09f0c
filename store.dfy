/** The enriched record store of the background script: the `bookmarks` and
    `duplicateBookmarks` keys of extension storage, the read-modify-write
    operations the bookmark listeners perform on them, and the write rule of
    the periodic duplicate scan. */
module Store {
  import opened Types
  import Flatten
  import Duplicates

  /** The storage keys this script writes. */
  datatype Key = BookmarksKey | DuplicatesKey

  /** A partial change: the keys `changeInfo` supplies, each absent or given. */
  datatype Change = Change(
    id: Option<string>,
    title: Option<string>,
    url: Option<string>,
    category: Option<string>,
    tags: Option<seq<string>>,
    notes: Option<string>)

  /** The record stored for a newly created native bookmark: id from the
      event, title and url from the node, default enrichment fields. */
  function NewRecord(id: string, node: Node): Bookmark {
    Bookmark(id, node.title, node.url, Uncategorized, [], "")
  }

  /** A supplied key wins over the current value. */
  function Pick<T>(supplied: Option<T>, current: T): T {
    match supplied
    case Some(v) => v
    case None => current
  }

  /** The object spread `{...b, ...c}`: the keys `c` supplies overwrite, every
      other field keeps its value. */
  function Merge(b: Bookmark, c: Change): Bookmark {
    Bookmark(
      Pick(c.id, b.id),
      Pick(c.title, b.title),
      if c.url.Some? then c.url else b.url,
      Pick(c.category, b.category),
      Pick(c.tags, b.tags),
      Pick(c.notes, b.notes))
  }

  /** `bookmarks.filter(b => b.id !== id)`. */
  function Removed(s: seq<Bookmark>, id: string): (r: seq<Bookmark>)
    ensures IsSubsequence(r, s)
    ensures forall b :: b in r <==> b in s && b.id != id
    ensures forall b :: multiset(r)[b] == if b.id != id then multiset(s)[b] else 0
  {
    if s == [] then []
    else if s[0].id != id then
      var rest := Removed(s[1..], id);
      assert s == [s[0]] + s[1..];
      assert ([s[0]] + rest)[1..] == rest;
      [s[0]] + rest
    else
      var rest := Removed(s[1..], id);
      assert s == [s[0]] + s[1..];
      assert rest == [] || IsSubsequence(rest, s[1..]);
      rest
  }

  /** `bookmarks.findIndex(b => b.id === id)`: the first position holding
      `id`, or -1 when there is none. */
  function FindIndex(s: seq<Bookmark>, id: string): (k: int)
    ensures -1 <= k < |s|
    ensures k == -1 <==> forall j :: 0 <= j < |s| ==> s[j].id != id
    ensures k >= 0 ==> s[k].id == id && forall j :: 0 <= j < k ==> s[j].id != id
  {
    if s == [] then -1
    else if s[0].id == id then 0
    else
      var k := FindIndex(s[1..], id);
      if k == -1 then -1 else k + 1
  }

  /** The sequence the update listener writes back: the first record with
      `id` merged with the change, or the input when no record has `id`. */
  function Updated(s: seq<Bookmark>, id: string, c: Change): (r: seq<Bookmark>)
    ensures |r| == |s|
    ensures forall j :: 0 <= j < |s| && j != FindIndex(s, id) ==> r[j] == s[j]
    ensures FindIndex(s, id) == -1 ==> r == s
  {
    var k := FindIndex(s, id);
    if k == -1 then s else s[k := Merge(s[k], c)]
  }

  /** The persisted state this script touches, with a log of the storage
      writes performed and of the `DUPLICATES_FOUND` messages sent. */
  class BookmarkStore {
    var bookmarks: Option<seq<Bookmark>>
    var duplicateBookmarks: Option<seq<Group>>
    var writes: seq<Key>
    var sent: seq<seq<Group>>

    /** Fresh storage: no key has been written yet. */
    constructor ()
      ensures bookmarks == None && duplicateBookmarks == None
      ensures writes == [] && sent == []
    {
      bookmarks := None;
      duplicateBookmarks := None;
      writes := [];
      sent := [];
    }

    /** `result.bookmarks || []`. */
    function Records(): seq<Bookmark>
      reads this
    {
      match bookmarks
      case Some(s) => s
      case None => []
    }

    /** `syncBookmarkToStorage`: appends one record with the default fields
        and writes the list back, whether or not `id` is already stored. */
    method SyncBookmark(id: string, node: Node)
      modifies this
      ensures bookmarks == Some(old(Records()) + [NewRecord(id, node)])
      ensures writes == old(writes) + [BookmarksKey]
      ensures duplicateBookmarks == old(duplicateBookmarks) && sent == old(sent)
    {
      var bookmarkData := NewRecord(id, node);
      var current := Records();
      current := current + [bookmarkData];
      bookmarks := Some(current);
      writes := writes + [BookmarksKey];
    }

    /** `removeBookmarkFromStorage`: writes back the list without any record
        holding `id`; the write happens even when nothing matched. */
    method RemoveBookmark(id: string)
      modifies this
      ensures bookmarks == Some(Removed(old(Records()), id))
      ensures writes == old(writes) + [BookmarksKey]
      ensures duplicateBookmarks == old(duplicateBookmarks) && sent == old(sent)
    {
      var current := Records();
      bookmarks := Some(Removed(current, id));
      writes := writes + [BookmarksKey];
    }

    /** `updateBookmarkInStorage`: merges the change into the first record
        with `id` and writes back; with no such record nothing is written. */
    method UpdateBookmark(id: string, changeInfo: Change)
      modifies this
      ensures FindIndex(old(Records()), id) == -1 ==> unchanged(this)
      ensures FindIndex(old(Records()), id) != -1 ==>
        && bookmarks == Some(Updated(old(Records()), id, changeInfo))
        && writes == old(writes) + [BookmarksKey]
        && duplicateBookmarks == old(duplicateBookmarks) && sent == old(sent)
    {
      var current := Records();
      var bookmarkIndex := FindIndex(current, id);
      if bookmarkIndex != -1 {
        current := current[bookmarkIndex := Merge(current[bookmarkIndex], changeInfo)];
        bookmarks := Some(current);
        writes := writes + [BookmarksKey];
      }
    }

    /** `findDuplicateBookmarks`: flattens the tree, detects duplicates and,
        only when at least one group was found, replaces the stored report
        and sends it; otherwise no write and no message. */
    method FindDuplicateBookmarks(tree: seq<Node>)
      modifies this
      ensures Duplicates.Dups(Flatten.FlattenForest(tree)) == [] ==> unchanged(this)
      ensures Duplicates.Dups(Flatten.FlattenForest(tree)) != [] ==>
        && duplicateBookmarks == Some(Duplicates.Dups(Flatten.FlattenForest(tree)))
        && writes == old(writes) + [DuplicatesKey]
        && sent == old(sent) + [Duplicates.Dups(Flatten.FlattenForest(tree))]
        && bookmarks == old(bookmarks)
    {
      var flat := Flatten.FlattenBookmarks(tree);
      var duplicates := Duplicates.FindDuplicates(flat);
      if |duplicates| > 0 {
        duplicateBookmarks := Some(duplicates);
        writes := writes + [DuplicatesKey];
        sent := sent + [duplicates];
      }
    }
  }

  lemma {:induction false} RemovedAppend(a: seq<Bookmark>, b: seq<Bookmark>, id: string)
    ensures Removed(a + b, id) == Removed(a, id) + Removed(b, id)
  {
    if a == [] {
      assert a + b == b;
    } else {
      assert (a + b)[0] == a[0];
      assert (a + b)[1..] == a[1..] + b;
      RemovedAppend(a[1..], b, id);
    }
  }

  /** Removing an id that no record holds leaves the list as it was. */
  lemma {:induction false} RemoveAbsent(s: seq<Bookmark>, id: string)
    requires forall j :: 0 <= j < |s| ==> s[j].id != id
    ensures Removed(s, id) == s
  {
    if s != [] {
      RemoveAbsent(s[1..], id);
    }
  }

  /** Creating a record and then removing its id gives what removing the id
      alone gives; when the id was not stored before, the pair is a no-op. */
  lemma CreateThenRemove(s: seq<Bookmark>, id: string, node: Node)
    ensures Removed(s + [NewRecord(id, node)], id) == Removed(s, id)
    ensures (forall j :: 0 <= j < |s| ==> s[j].id != id) ==> Removed(s + [NewRecord(id, node)], id) == s
  {
    RemovedAppend(s, [NewRecord(id, node)], id);
    assert Removed([NewRecord(id, node)], id) == [];
    if forall j :: 0 <= j < |s| ==> s[j].id != id {
      RemoveAbsent(s, id);
    }
  }

  /** Removing the same id twice is the same as removing it once. */
  lemma {:induction false} RemoveIdempotent(s: seq<Bookmark>, id: string)
    ensures Removed(Removed(s, id), id) == Removed(s, id)
  {
    var r := Removed(s, id);
    forall j | 0 <= j < |r| ensures r[j].id != id {
      assert r[j] in r;
    }
    RemoveAbsent(r, id);
  }

  /** Update with a matching id changes exactly the supplied fields of the
      first matching record: every supplied key takes the supplied value,
      every other field keeps its value. */
  lemma UpdateMergesSuppliedKeys(s: seq<Bookmark>, id: string, c: Change)
    requires FindIndex(s, id) != -1
    ensures var k, r := FindIndex(s, id), Updated(s, id, c);
      && r[k].id == (if c.id.Some? then c.id.value else s[k].id)
      && r[k].title == (if c.title.Some? then c.title.value else s[k].title)
      && r[k].url == (if c.url.Some? then c.url else s[k].url)
      && r[k].category == (if c.category.Some? then c.category.value else s[k].category)
      && r[k].tags == (if c.tags.Some? then c.tags.value else s[k].tags)
      && r[k].notes == (if c.notes.Some? then c.notes.value else s[k].notes)
  {
  }

  /** Update with `{category: cat}` changes only that record's category. */
  lemma UpdateCategoryOnly(s: seq<Bookmark>, id: string, cat: string)
    requires FindIndex(s, id) != -1
    ensures var k := FindIndex(s, id);
      Updated(s, id, Change(None, None, None, Some(cat), None, None)) == s[k := s[k].(category := cat)]
  {
  }

  /** Applying the same change twice gives the same list as applying it once,
      provided the change does not move the record to another id. */
  lemma UpdateIdempotent(s: seq<Bookmark>, id: string, c: Change)
    requires c.id == None || c.id == Some(id)
    ensures Updated(Updated(s, id, c), id, c) == Updated(s, id, c)
  {
    var k := FindIndex(s, id);
    if k != -1 {
      var r := Updated(s, id, c);
      assert r[k].id == id;
      assert forall j :: 0 <= j < k ==> r[j] == s[j];
      assert FindIndex(r, id) == k;
    }
  }
}
