/** The popup script: its own flattener that fills in the enrichment
    defaults, the search filter over the loaded bookmarks, and the default
    category list. */
module Popup {
  import opened Types
  import Flatten

  /** A flattened record with the default enrichment fields. */
  function Enrich(l: Leaf): Bookmark {
    Bookmark(l.id, l.title, Some(l.url), Uncategorized, [], "")
  }

  function EnrichAll(ls: seq<Leaf>): seq<Bookmark> {
    if ls == [] then [] else [Enrich(ls[0])] + EnrichAll(ls[1..])
  }

  lemma {:induction false} EnrichAllAt(ls: seq<Leaf>)
    ensures |EnrichAll(ls)| == |ls|
    ensures forall k :: 0 <= k < |ls| ==> EnrichAll(ls)[k] == Enrich(ls[k])
  {
    if ls != [] {
      EnrichAllAt(ls[1..]);
    }
  }

  /** The record the popup pushes for a node with a truthy url. */
  function ToBookmark(n: Node): (b: Bookmark)
    requires HasUrl(n)
    ensures b == Enrich(Flatten.ToLeaf(n))
  {
    Bookmark(n.id, n.title, n.url, Uncategorized, [], "")
  }

  lemma {:induction false} EnrichAllAppend(a: seq<Leaf>, b: seq<Leaf>)
    ensures EnrichAll(a + b) == EnrichAll(a) + EnrichAll(b)
  {
    if a == [] {
      assert a + b == b;
    } else {
      assert (a + b)[0] == a[0];
      assert (a + b)[1..] == a[1..] + b;
      EnrichAllAppend(a[1..], b);
    }
  }

  lemma EnrichOwn(n: Node)
    ensures EnrichAll(Flatten.Own(n)) == if HasUrl(n) then [ToBookmark(n)] else []
  {
    if HasUrl(n) {
      assert [Flatten.ToLeaf(n)][1..] == [];
    }
  }

  lemma EnrichNodeSplit(n: Node, kids: seq<Leaf>)
    requires n.children.Absent? ==> kids == []
    requires n.children.Present? ==> kids == Flatten.FlattenForest(n.children.nodes)
    ensures EnrichAll(Flatten.FlattenNode(n)) == EnrichAll(Flatten.Own(n)) + EnrichAll(kids)
  {
    assert Flatten.FlattenNode(n) == Flatten.Own(n) + kids;
    EnrichAllAppend(Flatten.Own(n), kids);
  }

  /** The enriched flattening of the first i + 1 siblings: that of the first
      i, then node i's own record, then its children's records. */
  lemma EnrichedPrefixStep(nodes: seq<Node>, i: nat, kids: seq<Leaf>)
    requires i < |nodes|
    requires nodes[i].children.Absent? ==> kids == []
    requires nodes[i].children.Present? ==> kids == Flatten.FlattenForest(nodes[i].children.nodes)
    ensures EnrichAll(Flatten.FlattenForest(nodes[..i + 1]))
      == EnrichAll(Flatten.FlattenForest(nodes[..i])) + (EnrichAll(Flatten.Own(nodes[i])) + EnrichAll(kids))
  {
    EnrichNodeSplit(nodes[i], kids);
    Flatten.FlattenPrefixStep(nodes, i);
    EnrichAllAppend(Flatten.FlattenForest(nodes[..i]), Flatten.FlattenNode(nodes[i]));
  }

  /** Regrouping a concatenation of four pieces. Kept apart from the step
      lemma below so that the solver proves it without the traversal facts. */
  lemma Regroup<T>(a: seq<T>, b: seq<T>, c: seq<T>, d: seq<T>)
    ensures a + b + c + d == a + (b + (c + d))
  {
  }

  /** One iteration of the popup's traversal loop: the records pushed for
      node i extend the enriched flattening of the first i siblings. */
  lemma PopupTraverseStep(nodes: seq<Node>, i: nat, acc: seq<Bookmark>, before: seq<Bookmark>, own: seq<Bookmark>, after: seq<Bookmark>)
    requires i < |nodes|
    requires before == acc + EnrichAll(Flatten.FlattenForest(nodes[..i]))
    requires own == before + EnrichAll(Flatten.Own(nodes[i]))
    requires nodes[i].children.Absent? ==> after == own
    requires nodes[i].children.Present? ==> after == own + EnrichAll(Flatten.FlattenForest(nodes[i].children.nodes))
    ensures after == acc + EnrichAll(Flatten.FlattenForest(nodes[..i + 1]))
  {
    var kids := if nodes[i].children.Present? then Flatten.FlattenForest(nodes[i].children.nodes) else [];
    EnrichedPrefixStep(nodes, i, kids);
    var done, ownR, kidsR := EnrichAll(Flatten.FlattenForest(nodes[..i])), EnrichAll(Flatten.Own(nodes[i])), EnrichAll(kids);
    assert after == acc + done + ownR + kidsR;
    Regroup(acc, done, ownR, kidsR);
  }

  /** The popup's traversal: walks `nodes` left to right, pushing an
      enriched record for every node with a truthy url and recursing into
      `children` whenever they are present. */
  method Traverse(nodes: seq<Node>, acc: seq<Bookmark>) returns (bookmarksList: seq<Bookmark>)
    ensures bookmarksList == acc + EnrichAll(Flatten.FlattenForest(nodes))
    decreases Present(nodes)
  {
    bookmarksList := acc;
    var i := 0;
    assert nodes[..0] == [];
    while i < |nodes|
      invariant 0 <= i <= |nodes|
      invariant bookmarksList == acc + EnrichAll(Flatten.FlattenForest(nodes[..i]))
    {
      var node := nodes[i];
      ghost var before := bookmarksList;
      EnrichOwn(node);
      if HasUrl(node) {
        bookmarksList := bookmarksList + [ToBookmark(node)];
      }
      ghost var own := bookmarksList;
      if node.children.Present? {
        assert node in nodes;
        bookmarksList := Traverse(node.children.nodes, bookmarksList);
      }
      PopupTraverseStep(nodes, i, acc, before, own, bookmarksList);
      i := i + 1;
    }
    assert nodes[..i] == nodes;
  }

  /** `flattenBookmarks` of the popup: the background flattener's records,
      in the same order, each with category "Uncategorized", no tags and
      empty notes. */
  method FlattenBookmarks(nodes: seq<Node>) returns (bookmarksList: seq<Bookmark>)
    ensures |bookmarksList| == |Flatten.FlattenForest(nodes)|
    ensures forall k :: 0 <= k < |bookmarksList| ==>
      var b, l := bookmarksList[k], Flatten.FlattenForest(nodes)[k];
      b.id == l.id && b.title == l.title && b.url == Some(l.url)
    ensures forall b :: b in bookmarksList ==>
      b.category == Uncategorized && b.tags == [] && b.notes == "" && b.url.Some? && b.url.value != ""
  {
    bookmarksList := Traverse(nodes, []);
    EnrichAllAt(Flatten.FlattenForest(nodes));
    forall b | b in bookmarksList
      ensures b.category == Uncategorized && b.tags == [] && b.notes == "" && b.url.Some? && b.url.value != ""
    {
      var k :| 0 <= k < |bookmarksList| && bookmarksList[k] == b;
      var l := Flatten.FlattenForest(nodes)[k];
      Flatten.FlattenMembership(nodes, l);
    }
  }

  /** `s.includes(sub)`. */
  function Includes(s: string, sub: string): bool
    decreases |s|
  {
    if |sub| > |s| then false
    else if s[..|sub|] == sub then true
    else Includes(s[1..], sub)
  }

  /** `sub` occurs in `s` starting at position `i`. */
  ghost predicate OccursAt(s: string, sub: string, i: int) {
    0 <= i <= |s| - |sub| && s[i..i + |sub|] == sub
  }

  /** `includes` holds exactly when `sub` occurs at some position of `s`. */
  lemma {:induction false} IncludesIffOccurs(s: string, sub: string)
    ensures Includes(s, sub) <==> exists i :: OccursAt(s, sub, i)
    decreases |s|
  {
    if |sub| > |s| {
    } else if s[..|sub|] == sub {
      assert OccursAt(s, sub, 0);
    } else {
      IncludesIffOccurs(s[1..], sub);
      if exists i :: OccursAt(s, sub, i) {
        var i :| OccursAt(s, sub, i);
        assert i != 0;
        assert s[1..][i - 1..i - 1 + |sub|] == s[i..i + |sub|];
        assert OccursAt(s[1..], sub, i - 1);
      }
      if exists i :: OccursAt(s[1..], sub, i) {
        var i :| OccursAt(s[1..], sub, i);
        assert s[1..][i..i + |sub|] == s[i + 1..i + 1 + |sub|];
        assert OccursAt(s, sub, i + 1);
      }
    }
  }

  /** Every string includes the empty string. */
  lemma IncludesEmpty(s: string)
    ensures Includes(s, "")
  {
    IncludesIffOccurs(s, "");
    assert OccursAt(s, "", 0);
  }

  /** The filter predicate: the lowercased title, url or some tag includes
      the (already lowercased) search term. */
  predicate Matches(b: Bookmark, term: string, lower: string -> string)
    requires b.url.Some?
  {
    || Includes(lower(b.title), term)
    || Includes(lower(b.url.value), term)
    || exists k :: 0 <= k < |b.tags| && Includes(lower(b.tags[k]), term)
  }

  /** Every record has a url, as every record the popup flattener makes does. */
  predicate AllHaveUrl(bookmarks: seq<Bookmark>) {
    forall b :: b in bookmarks ==> b.url.Some?
  }

  /** The search filter: keeps the bookmarks that match, in their order. */
  function Search(bookmarks: seq<Bookmark>, term: string, lower: string -> string): (r: seq<Bookmark>)
    requires AllHaveUrl(bookmarks)
    ensures IsSubsequence(r, bookmarks)
    ensures forall b :: multiset(r)[b] == if b in bookmarks && Matches(b, term, lower) then multiset(bookmarks)[b] else 0
  {
    if bookmarks == [] then []
    else
      var b := bookmarks[0];
      var rest := Search(bookmarks[1..], term, lower);
      assert bookmarks == [b] + bookmarks[1..];
      if Matches(b, term, lower) then
        assert ([b] + rest)[1..] == rest;
        [b] + rest
      else
        assert rest == [] || IsSubsequence(rest, bookmarks[1..]);
        rest
  }

  /** An empty search term keeps every bookmark, in order. */
  lemma {:induction false} EmptyTermKeepsAll(bookmarks: seq<Bookmark>, lower: string -> string)
    requires AllHaveUrl(bookmarks)
    ensures Search(bookmarks, "", lower) == bookmarks
  {
    if bookmarks != [] {
      IncludesEmpty(lower(bookmarks[0].title));
      EmptyTermKeepsAll(bookmarks[1..], lower);
    }
  }

  /** `result.categories || ['Uncategorized']`: an absent key gives the
      default list; a stored list, even an empty one, is taken as it is. */
  function LoadedCategories(stored: Option<seq<string>>): (categories: seq<string>)
    ensures stored == None ==> categories == [Uncategorized]
    ensures stored != None ==> categories == stored.value
    ensures categories == [] <==> stored == Some([])
  {
    match stored
    case Some(cs) => cs
    case None => [Uncategorized]
  }

  /** The popup's module-level state. */
  class PopupState {
    var bookmarks: seq<Bookmark>
    var categories: seq<string>

    predicate Valid()
      reads this
    {
      AllHaveUrl(bookmarks)
    }

    constructor ()
      ensures bookmarks == [] && categories == [] && Valid()
    {
      bookmarks := [];
      categories := [];
    }

    /** `loadBookmarks`: replaces the list with the flattened tree. */
    method LoadBookmarks(tree: seq<Node>)
      modifies this`bookmarks
      ensures Valid()
      ensures bookmarks == EnrichAll(Flatten.FlattenForest(tree))
    {
      bookmarks := Traverse(tree, []);
      EnrichAllAt(Flatten.FlattenForest(tree));
      forall b | b in bookmarks ensures b.url.Some? {
        var k :| 0 <= k < |bookmarks| && bookmarks[k] == b;
      }
    }

    /** `loadCategories`. */
    method LoadCategories(stored: Option<seq<string>>)
      modifies this`categories
      ensures categories == LoadedCategories(stored)
    {
      categories := LoadedCategories(stored);
    }

    /** The search box's input handler: lowercases the input and filters the
        loaded bookmarks with it. */
    method OnSearchInput(value: string, lower: string -> string) returns (filteredBookmarks: seq<Bookmark>)
      requires Valid()
      ensures filteredBookmarks == Search(bookmarks, lower(value), lower)
    {
      var searchTerm := lower(value);
      filteredBookmarks := Search(bookmarks, searchTerm, lower);
    }
  }
}
