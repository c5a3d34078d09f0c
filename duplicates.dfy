/** The duplicate detector of the background script: one pass over the flat
    record list, remembering the first record seen for every url and
    reporting each later record with an already-seen url as a pair
    `[first, current]`. */
module Duplicates {
  import opened Types

  /** The urls occurring in a record list. */
  ghost function Urls(s: seq<Leaf>): set<string> {
    set k | 0 <= k < |s| :: s[k].url
  }

  lemma UrlsSnoc(s: seq<Leaf>, x: Leaf)
    ensures Urls(s + [x]) == Urls(s) + {x.url}
  {
    forall u | u in Urls(s) ensures u in Urls(s + [x]) {
      var k :| 0 <= k < |s| && s[k].url == u;
      assert (s + [x])[k].url == u;
    }
    assert (s + [x])[|s|].url == x.url;
  }

  lemma UrlsTail(s: seq<Leaf>, u: string)
    requires u in Urls(s) && s[0].url != u
    ensures u in Urls(s[1..])
  {
    var k :| 0 <= k < |s| && s[k].url == u;
    assert s[1..][k - 1].url == u;
  }

  /** The position of the earliest record whose url is `u`. */
  ghost function FirstIndex(s: seq<Leaf>, u: string): (k: nat)
    requires u in Urls(s)
    ensures k < |s| && s[k].url == u
    ensures forall j :: 0 <= j < k ==> s[j].url != u
  {
    if s[0].url == u then 0
    else
      UrlsTail(s, u);
      1 + FirstIndex(s[1..], u)
  }

  lemma FirstIndexOfPrefix(p: seq<Leaf>, t: seq<Leaf>, u: string)
    requires u in Urls(p)
    ensures u in Urls(p + t) && FirstIndex(p + t, u) == FirstIndex(p, u)
  {
    var k := FirstIndex(p, u);
    assert (p + t)[k].url == u;
    forall j | 0 <= j < k ensures (p + t)[j].url != u {
      assert (p + t)[j] == p[j];
    }
  }

  /** The report of the detector, defined by occurrence: scanning left to
      right, every record whose url occurred earlier gives one group pairing
      the earliest record with that url and the record itself. */
  ghost function Dups(s: seq<Leaf>): seq<Group>
    decreases |s|
  {
    if s == [] then []
    else
      var p, x := s[..|s| - 1], s[|s| - 1];
      Dups(p) + if x.url in Urls(p) then [Group(x.url, [p[FirstIndex(p, x.url)], x])] else []
  }

  /** What the scan knows after the first i records: the map holds exactly
      the urls seen so far, each bound to the earliest record with that url,
      and the report is the report of those records. */
  ghost predicate Scanned(s: seq<Leaf>, i: nat, urlMap: map<string, Leaf>, duplicates: seq<Group>) {
    && i <= |s|
    && urlMap.Keys == Urls(s[..i])
    && (forall u :: u in urlMap ==> urlMap[u] == s[FirstIndex(s[..i], u)])
    && duplicates == Dups(s[..i])
  }

  lemma PrefixStep(s: seq<Leaf>, i: nat)
    requires i < |s|
    ensures Urls(s[..i + 1]) == Urls(s[..i]) + {s[i].url}
    ensures forall u :: u in Urls(s[..i]) ==> FirstIndex(s[..i + 1], u) == FirstIndex(s[..i], u)
    ensures s[i].url !in Urls(s[..i]) ==> FirstIndex(s[..i + 1], s[i].url) == i
  {
    var p := s[..i];
    assert s[..i + 1] == p + [s[i]];
    UrlsSnoc(p, s[i]);
    forall u | u in Urls(p) ensures FirstIndex(p + [s[i]], u) == FirstIndex(p, u) {
      FirstIndexOfPrefix(p, [s[i]], u);
    }
  }

  lemma DupsStep(s: seq<Leaf>, i: nat)
    requires i < |s|
    ensures Dups(s[..i + 1]) == Dups(s[..i]) +
      if s[i].url in Urls(s[..i]) then [Group(s[i].url, [s[FirstIndex(s[..i], s[i].url)], s[i]])] else []
  {
    assert s[..i + 1][..i] == s[..i];
  }

  /** A record whose url was seen before adds one group and leaves the map. */
  lemma ScanSeen(s: seq<Leaf>, i: nat, urlMap: map<string, Leaf>, duplicates: seq<Group>)
    requires i < |s| && Scanned(s, i, urlMap, duplicates) && s[i].url in urlMap
    ensures Scanned(s, i + 1, urlMap, duplicates + [Group(s[i].url, [urlMap[s[i].url], s[i]])])
  {
    PrefixStep(s, i);
    DupsStep(s, i);
    assert Urls(s[..i + 1]) == Urls(s[..i]);
    forall u | u in urlMap ensures urlMap[u] == s[FirstIndex(s[..i + 1], u)] {
    }
  }

  /** A record with a new url is remembered and adds no group. */
  lemma ScanNew(s: seq<Leaf>, i: nat, urlMap: map<string, Leaf>, duplicates: seq<Group>)
    requires i < |s| && Scanned(s, i, urlMap, duplicates) && s[i].url !in urlMap
    ensures Scanned(s, i + 1, urlMap[s[i].url := s[i]], duplicates)
  {
    PrefixStep(s, i);
    DupsStep(s, i);
    var m := urlMap[s[i].url := s[i]];
    forall u | u in m ensures m[u] == s[FirstIndex(s[..i + 1], u)] {
      if u != s[i].url {
        assert u in urlMap;
      }
    }
  }

  /** `findDuplicates`: one pass with a url-to-first-record map. */
  method FindDuplicates(bookmarks: seq<Leaf>) returns (duplicates: seq<Group>)
    ensures duplicates == Dups(bookmarks)
  {
    var urlMap: map<string, Leaf> := map[];
    duplicates := [];
    var i := 0;
    assert Urls(bookmarks[..0]) == {};
    while i < |bookmarks|
      invariant Scanned(bookmarks, i, urlMap, duplicates)
    {
      var bookmark := bookmarks[i];
      if bookmark.url in urlMap {
        ScanSeen(bookmarks, i, urlMap, duplicates);
        duplicates := duplicates + [Group(bookmark.url, [urlMap[bookmark.url], bookmark])];
      } else {
        ScanNew(bookmarks, i, urlMap, duplicates);
        urlMap := urlMap[bookmark.url := bookmark];
      }
      i := i + 1;
    }
    assert bookmarks[..i] == bookmarks;
  }

  /** Every group is a pair of two records sharing the group's url: the
      earliest record with that url, then one strictly later record. */
  ghost predicate IsDuplicatePair(s: seq<Leaf>, g: Group) {
    && g.url in Urls(s)
    && |g.instances| == 2
    && g.instances[0] == s[FirstIndex(s, g.url)]
    && g.instances[1].url == g.url
    && exists j :: FirstIndex(s, g.url) < j < |s| && s[j] == g.instances[1]
  }

  lemma DuplicatePairExtends(p: seq<Leaf>, t: seq<Leaf>, g: Group)
    requires IsDuplicatePair(p, g)
    ensures IsDuplicatePair(p + t, g)
  {
    FirstIndexOfPrefix(p, t, g.url);
    var j :| FirstIndex(p, g.url) < j < |p| && p[j] == g.instances[1];
    assert (p + t)[j] == p[j];
    assert (p + t)[FirstIndex(p, g.url)] == p[FirstIndex(p, g.url)];
  }

  lemma {:induction false} DupsArePairs(s: seq<Leaf>)
    ensures forall g :: g in Dups(s) ==> IsDuplicatePair(s, g)
    decreases |s|
  {
    if s != [] {
      var p, x := s[..|s| - 1], s[|s| - 1];
      assert s == p + [x];
      DupsArePairs(p);
      forall g | g in Dups(s) ensures IsDuplicatePair(s, g) {
        if g in Dups(p) {
          DuplicatePairExtends(p, [x], g);
        } else {
          assert x.url in Urls(p) && g == Group(x.url, [p[FirstIndex(p, x.url)], x]);
          FirstIndexOfPrefix(p, [x], x.url);
          UrlsSnoc(p, x);
          assert s[|s| - 1] == x;
        }
      }
    }
  }

  /** The number of groups is the number of records minus the number of
      distinct urls. */
  lemma {:induction false} DupsCount(s: seq<Leaf>)
    ensures |Dups(s)| == |s| - |Urls(s)|
    decreases |s|
  {
    if s == [] {
      assert Urls(s) == {};
    } else {
      var p, x := s[..|s| - 1], s[|s| - 1];
      assert s == p + [x];
      DupsCount(p);
      UrlsSnoc(p, x);
      if x.url in Urls(p) {
        assert Urls(s) == Urls(p);
      }
    }
  }

  /** No two records share a url. */
  predicate DistinctUrls(s: seq<Leaf>) {
    forall i, j :: 0 <= i < j < |s| ==> s[i].url != s[j].url
  }

  /** The report is empty exactly when all urls are distinct (in particular
      for the empty list). */
  lemma {:induction false} DupsEmptyIff(s: seq<Leaf>)
    ensures Dups(s) == [] <==> DistinctUrls(s)
    decreases |s|
  {
    if s != [] {
      var p, x := s[..|s| - 1], s[|s| - 1];
      assert s == p + [x];
      DupsEmptyIff(p);
      if DistinctUrls(s) {
        assert DistinctUrls(p) by {
          forall i, j | 0 <= i < j < |p| ensures p[i].url != p[j].url {
            assert s[i] == p[i] && s[j] == p[j];
          }
        }
        forall k | 0 <= k < |p| ensures p[k].url != x.url {
          assert s[k] == p[k];
        }
      } else {
        var i, j :| 0 <= i < j < |s| && s[i].url == s[j].url;
        if j == |s| - 1 {
          assert p[i] == s[i];
          assert x.url in Urls(p);
        } else {
          assert p[i] == s[i] && p[j] == s[j];
          assert !DistinctUrls(p);
        }
      }
    }
  }

  /** The report grows with the input in discovery order: what is reported
      for the first i records is a prefix of what is reported for all. */
  lemma {:induction false} DupsPrefix(s: seq<Leaf>, i: nat)
    requires i <= |s|
    ensures Dups(s[..i]) <= Dups(s)
    decreases |s| - i
  {
    if i < |s| {
      DupsPrefix(s, i + 1);
      assert s[..i + 1][..i] == s[..i];
    } else {
      assert s[..i] == s;
    }
  }

  lemma Unfold3(a: Leaf, b: Leaf, c: Leaf)
    ensures Dups([a, b, c]) ==
      Dups([a, b]) + if c.url in Urls([a, b]) then [Group(c.url, [[a, b][FirstIndex([a, b], c.url)], c])] else []
    ensures Dups([a, b]) ==
      Dups([a]) + if b.url in Urls([a]) then [Group(b.url, [[a][FirstIndex([a], b.url)], b])] else []
    ensures Dups([a]) == [] && Urls([a]) == {a.url} && Urls([a, b]) == {a.url, b.url}
  {
    assert [a, b, c][..2] == [a, b];
    assert [a, b][..1] == [a];
    assert [a][..0] == [];
    UrlsSnoc([], a);
    UrlsSnoc([a], b);
    assert [a] == [] + [a];
    assert [a, b] == [a] + [b];
  }

  /** `[x, y, x]` gives exactly one group, pairing the first and third records. */
  lemma ExampleOnePair(a: Leaf, b: Leaf, c: Leaf)
    requires a.url == c.url && a.url != b.url
    ensures Dups([a, b, c]) == [Group(a.url, [a, c])]
  {
    Unfold3(a, b, c);
  }

  /** Three records with one url give two pairs, both led by the first. */
  lemma ExampleThreeCopies(a: Leaf, b: Leaf, c: Leaf)
    requires a.url == b.url == c.url
    ensures Dups([a, b, c]) == [Group(a.url, [a, b]), Group(a.url, [a, c])]
  {
    Unfold3(a, b, c);
  }
}
