/** Shared data model of the bookmark manager: the native bookmark tree, the
    flat records produced from it, the enriched records kept in storage and
    the duplicate reports. */
module Types {

  datatype Option<T> = None | Some(value: T)

  /** A node of the native bookmark tree. A leaf carries a url, a folder
      carries children; neither is enforced, exactly as the extension does
      not check the shape of what the browser hands it. */
  datatype Node = Node(id: string, title: string, url: Option<string>, children: Children)

  /** The `children` property of a node: absent, or a (possibly empty) list. */
  datatype Children = Absent | Present(nodes: seq<Node>)

  /** The record the background flattener emits: `{id, title, url}`. */
  datatype Leaf = Leaf(id: string, title: string, url: string)

  /** An enriched bookmark record as the store and the popup keep it. The url
      is absent when the record was created for a folder. */
  datatype Bookmark = Bookmark(
    id: string,
    title: string,
    url: Option<string>,
    category: string,
    tags: seq<string>,
    notes: string)

  /** A duplicate report: the url and the instances sharing it. */
  datatype Group = Group(url: string, instances: seq<Leaf>)

  /** The category every new record starts in. */
  const Uncategorized: string := "Uncategorized"

  /** JavaScript truthiness of `node.url`: present and not the empty string. */
  predicate HasUrl(n: Node) {
    n.url.Some? && n.url.value != ""
  }

  /** `a` is obtained from `b` by dropping elements: same relative order, no
      element added or repeated. */
  ghost predicate IsSubsequence<T>(a: seq<T>, b: seq<T>)
    decreases |b|
  {
    a == [] ||
    (b != [] && ((a[0] == b[0] && IsSubsequence(a[1..], b[1..])) || IsSubsequence(a, b[1..])))
  }
}
