/**
 * The bookmark step of compress_pdf_group.py (`add_outline`): the first
 * page of every merged file, the positional map from entry titles to files,
 * and the two-level outline built from them. Page counts come in as a
 * sequence aligned with the file list.
 */
module Outline {
  import opened Wrappers
  import opened Toc

  /** `flat_titles`: every entry title, section after section. */
  function Flatten(structure: seq<Section>): seq<string>
  {
    if structure == [] then [] else Flatten(structure[..|structure| - 1]) + Last(structure).entries
  }

  lemma {:induction false} FlattenMembers(structure: seq<Section>, t: string)
    ensures t in Flatten(structure) <==> exists k :: 0 <= k < |structure| && t in structure[k].entries
    decreases |structure|
  {
    if structure != [] {
      var front := structure[..|structure| - 1];
      FlattenMembers(front, t);
      if t in Flatten(front) {
        var k :| 0 <= k < |front| && t in front[k].entries;
        assert structure[k] == front[k];
      }
      if exists k :: 0 <= k < |structure| && t in structure[k].entries {
        var k :| 0 <= k < |structure| && t in structure[k].entries;
        if k < |front| {
          assert front[k] == structure[k];
        }
      }
    }
  }

  function Sum(s: seq<nat>): nat
  {
    if s == [] then 0 else Sum(s[..|s| - 1]) + s[|s| - 1]
  }

  /** The last position of `t` in `s`. */
  function LastIndex<T(==)>(s: seq<T>, t: T): (i: nat)
    requires t in s
    ensures i < |s| && s[i] == t && t !in s[i + 1..]
  {
    if s[|s| - 1] == t then |s| - 1
    else
      assert s == s[..|s| - 1] + [s[|s| - 1]];
      LastIndex(s[..|s| - 1], t)
  }

  predicate NoDuplicates<T(==)>(s: seq<T>)
  {
    forall i, j :: 0 <= i < j < |s| ==> s[i] != s[j]
  }

  /** `page_lookup` after the loop: each file mapped to its first page in the merged document. */
  function StartPages(pdfs: seq<string>, pages: seq<nat>): map<string, nat>
    requires |pages| == |pdfs|
  {
    if pdfs == [] then map[]
    else
      var n := |pdfs| - 1;
      StartPages(pdfs[..n], pages[..n])[pdfs[n] := Sum(pages[..n])]
  }

  /**
   * Every file gets a start page, and it is the number of pages of the files
   * before it (before its last occurrence, should a name repeat).
   */
  lemma {:induction false} StartPageIsPrefixSum(pdfs: seq<string>, pages: seq<nat>, f: string)
    requires |pages| == |pdfs|
    ensures f in StartPages(pdfs, pages) <==> f in pdfs
    ensures f in pdfs ==> StartPages(pdfs, pages)[f] == Sum(pages[..LastIndex(pdfs, f)])
    decreases |pdfs|
  {
    if pdfs != [] {
      var n := |pdfs| - 1;
      StartPageIsPrefixSum(pdfs[..n], pages[..n], f);
      assert pdfs == pdfs[..n] + [pdfs[n]];
      if f in pdfs && f != pdfs[n] {
        assert f in pdfs[..n];
        var i := LastIndex(pdfs[..n], f);
        assert pdfs[i + 1..] == pdfs[..n][i + 1..] + [pdfs[n]];
        assert LastIndex(pdfs, f) == i;
        assert pages[..n][..i] == pages[..i];
      }
    }
  }

  /** With distinct names, file `k` starts after the pages of files `0..k-1`. */
  lemma StartPageOfDistinct(pdfs: seq<string>, pages: seq<nat>, k: nat)
    requires |pages| == |pdfs| && NoDuplicates(pdfs) && k < |pdfs|
    ensures pdfs[k] in StartPages(pdfs, pages)
    ensures StartPages(pdfs, pages)[pdfs[k]] == Sum(pages[..k])
  {
    StartPageIsPrefixSum(pdfs, pages, pdfs[k]);
    var i := LastIndex(pdfs, pdfs[k]);
    assert pdfs[i] == pdfs[k];
  }

  /** The `page_lookup` loop of `add_outline`. */
  method PageLookup(pdfs: seq<string>, pages: seq<nat>) returns (lookup: map<string, nat>)
    requires |pages| == |pdfs|
    ensures lookup == StartPages(pdfs, pages)
  {
    lookup := map[];
    var currentPage := 0;
    var i := 0;
    while i < |pdfs|
      invariant 0 <= i <= |pdfs|
      invariant currentPage == Sum(pages[..i])
      invariant lookup == StartPages(pdfs[..i], pages[..i])
    {
      assert pdfs[..i + 1][..i] == pdfs[..i] && pages[..i + 1][..i] == pages[..i];
      lookup := lookup[pdfs[i] := currentPage];
      currentPage := currentPage + pages[i];
      i := i + 1;
    }
    assert pdfs[..|pdfs|] == pdfs && pages[..|pages|] == pages;
  }

  /** `file_map`: entry title `i` mapped to file `i`; a repeated title keeps its last file. */
  function FileMap(flat: seq<string>, pdfs: seq<string>): map<string, string>
    decreases |flat|
  {
    var n := Min(|flat|, |pdfs|);
    if n == 0 then map[] else FileMap(flat[..n - 1], pdfs[..n - 1])[flat[n - 1] := pdfs[n - 1]]
  }

  /**
   * Only titles among the first `min(|flat|, |pdfs|)` are mapped, and each
   * to the file at its last position there.
   */
  lemma {:induction false} FileMapLaterWins(flat: seq<string>, pdfs: seq<string>, t: string)
    ensures var n := Min(|flat|, |pdfs|);
      && (t in FileMap(flat, pdfs) <==> t in flat[..n])
      && (t in flat[..n] ==> FileMap(flat, pdfs)[t] == pdfs[LastIndex(flat[..n], t)])
    decreases |flat|
  {
    var n := Min(|flat|, |pdfs|);
    if n > 0 {
      var f', p' := flat[..n - 1], pdfs[..n - 1];
      FileMapLaterWins(f', p', t);
      assert Min(|f'|, |p'|) == n - 1 && f'[..n - 1] == f';
      assert flat[..n] == f' + [flat[n - 1]];
      if t in flat[..n] && t != flat[n - 1] {
        assert t in f';
        var i := LastIndex(f', t);
        assert flat[..n][i + 1..] == f'[i + 1..] + [flat[n - 1]];
        assert LastIndex(flat[..n], t) == i;
      }
    }
  }

  /** A child item of the outline: an entry title with its page. */
  datatype Bookmark = Bookmark(title: string, page: nat)

  /** A parent item (a section, without a page) and its children. */
  datatype OutlineNode = OutlineNode(title: string, children: seq<Bookmark>)

  /** The test `filename and filename in page_lookup` on `file_map.get(title)`. */
  predicate HasPage(t: string, fileMap: map<string, string>, lookup: map<string, nat>)
  {
    t in fileMap && fileMap[t] != "" && fileMap[t] in lookup
  }

  /** The children the inner loop adds for one section's entries. */
  function Children(entries: seq<string>, fileMap: map<string, string>, lookup: map<string, nat>): seq<Bookmark>
  {
    if entries == [] then []
    else
      var t := entries[|entries| - 1];
      Children(entries[..|entries| - 1], fileMap, lookup)
      + (if HasPage(t, fileMap, lookup) then [Bookmark(t, lookup[fileMap[t]])] else [])
  }

  /** The outline `add_outline` writes. */
  function OutlineOf(structure: seq<Section>, pdfs: seq<string>, pages: seq<nat>): (outline: seq<OutlineNode>)
    requires |pages| == |pdfs|
    ensures |outline| == |structure|
  {
    var lookup := StartPages(pdfs, pages);
    var fileMap := FileMap(Flatten(structure), pdfs);
    seq(|structure|, k requires 0 <= k < |structure| =>
      OutlineNode(structure[k].title, Children(structure[k].entries, fileMap, lookup)))
  }

  /** The outline loops of `add_outline`; writing the file is left out. */
  method AddOutline(structure: seq<Section>, pdfs: seq<string>, pages: seq<nat>) returns (outline: seq<OutlineNode>)
    requires |pages| == |pdfs|
    ensures outline == OutlineOf(structure, pdfs, pages)
  {
    var lookup := PageLookup(pdfs, pages);
    var fileMap := FileMap(Flatten(structure), pdfs);
    outline := [];
    var k := 0;
    while k < |structure|
      invariant 0 <= k <= |structure|
      invariant outline == OutlineOf(structure, pdfs, pages)[..k]
    {
      var entries := structure[k].entries;
      var children := [];
      var j := 0;
      while j < |entries|
        invariant 0 <= j <= |entries|
        invariant children == Children(entries[..j], fileMap, lookup)
      {
        var title := entries[j];
        assert entries[..j + 1][..j] == entries[..j];
        if title in fileMap && fileMap[title] != "" && fileMap[title] in lookup {
          children := children + [Bookmark(title, lookup[fileMap[title]])];
        }
        j := j + 1;
      }
      assert entries[..|entries|] == entries;
      outline := outline + [OutlineNode(structure[k].title, children)];
      k := k + 1;
    }
  }

  /** The entries of `entries` whose title occurs in `known`, in order. */
  function Listed(entries: seq<string>, known: seq<string>): seq<string>
  {
    if entries == [] then []
    else
      var t := entries[|entries| - 1];
      Listed(entries[..|entries| - 1], known) + (if t in known then [t] else [])
  }

  function BookmarkTitles(bs: seq<Bookmark>): seq<string>
  {
    if bs == [] then [] else BookmarkTitles(bs[..|bs| - 1]) + [bs[|bs| - 1].title]
  }

  /** For one title: whether it gets a bookmark, and on which page. */
  lemma BookmarkOfTitle(structure: seq<Section>, pdfs: seq<string>, pages: seq<nat>, t: string)
    requires |pages| == |pdfs| && NoDuplicates(pdfs) && forall f :: f in pdfs ==> f != ""
    ensures var flat := Flatten(structure); var n := Min(|flat|, |pdfs|);
      var fileMap := FileMap(flat, pdfs); var lookup := StartPages(pdfs, pages);
      && (HasPage(t, fileMap, lookup) <==> t in flat[..n])
      && (t in flat[..n] ==> lookup[fileMap[t]] == Sum(pages[..LastIndex(flat[..n], t)]))
  {
    var flat := Flatten(structure);
    var n := Min(|flat|, |pdfs|);
    FileMapLaterWins(flat, pdfs, t);
    if t in flat[..n] {
      var i := LastIndex(flat[..n], t);
      assert i < |pdfs| && FileMap(flat, pdfs)[t] == pdfs[i];
      assert pdfs[i] in pdfs;
      StartPageOfDistinct(pdfs, pages, i);
    }
  }

  /** Every child sits on the start page of the file at its title's last position in `known`. */
  predicate PagesMatch(kids: seq<Bookmark>, known: seq<string>, pages: seq<nat>)
    requires |known| <= |pages|
  {
    forall b :: b in kids ==> b.title in known && b.page == Sum(pages[..LastIndex(known, b.title)])
  }

  /** What `BookmarkOfTitle` establishes for one title, for a given map pair. */
  predicate TitleFacts(t: string, fileMap: map<string, string>, lookup: map<string, nat>,
                       known: seq<string>, pages: seq<nat>)
    requires |known| <= |pages|
  {
    && (HasPage(t, fileMap, lookup) <==> t in known)
    && (t in known ==> HasPage(t, fileMap, lookup) && lookup[fileMap[t]] == Sum(pages[..LastIndex(known, t)]))
  }

  lemma ChildrenSnoc(front: seq<string>, t: string, fileMap: map<string, string>, lookup: map<string, nat>)
    ensures HasPage(t, fileMap, lookup) ==>
      Children(front + [t], fileMap, lookup) == Children(front, fileMap, lookup) + [Bookmark(t, lookup[fileMap[t]])]
    ensures !HasPage(t, fileMap, lookup) ==> Children(front + [t], fileMap, lookup) == Children(front, fileMap, lookup)
  {
    assert (front + [t])[..|front|] == front;
  }

  lemma ListedSnoc(front: seq<string>, t: string, known: seq<string>)
    ensures t in known ==> Listed(front + [t], known) == Listed(front, known) + [t]
    ensures t !in known ==> Listed(front + [t], known) == Listed(front, known)
  {
    assert (front + [t])[..|front|] == front;
  }

  lemma BookmarkTitlesSnoc(kids: seq<Bookmark>, b: Bookmark)
    ensures BookmarkTitles(kids + [b]) == BookmarkTitles(kids) + [b.title]
  {
    assert (kids + [b])[..|kids|] == kids;
  }

  lemma PagesMatchSnoc(kids: seq<Bookmark>, b: Bookmark, known: seq<string>, pages: seq<nat>)
    requires |known| <= |pages| && PagesMatch(kids, known, pages)
    requires b.title in known && b.page == Sum(pages[..LastIndex(known, b.title)])
    ensures PagesMatch(kids + [b], known, pages)
  {
  }

  lemma ChildrenStep(front: seq<string>, t: string, fileMap: map<string, string>,
                     lookup: map<string, nat>, known: seq<string>, pages: seq<nat>)
    requires |known| <= |pages| && TitleFacts(t, fileMap, lookup, known, pages)
    requires BookmarkTitles(Children(front, fileMap, lookup)) == Listed(front, known)
    requires PagesMatch(Children(front, fileMap, lookup), known, pages)
    ensures BookmarkTitles(Children(front + [t], fileMap, lookup)) == Listed(front + [t], known)
    ensures PagesMatch(Children(front + [t], fileMap, lookup), known, pages)
  {
    var kids := Children(front, fileMap, lookup);
    ChildrenSnoc(front, t, fileMap, lookup);
    ListedSnoc(front, t, known);
    if HasPage(t, fileMap, lookup) {
      var b := Bookmark(t, lookup[fileMap[t]]);
      BookmarkTitlesSnoc(kids, b);
      PagesMatchSnoc(kids, b, known, pages);
    }
  }

  /** `Children`, given the per-title facts of `BookmarkOfTitle` for a map pair. */
  lemma {:induction false} ChildrenAreListed(entries: seq<string>, fileMap: map<string, string>,
                                             lookup: map<string, nat>, known: seq<string>, pages: seq<nat>)
    requires |known| <= |pages|
    requires forall t :: TitleFacts(t, fileMap, lookup, known, pages)
    ensures BookmarkTitles(Children(entries, fileMap, lookup)) == Listed(entries, known)
    ensures PagesMatch(Children(entries, fileMap, lookup), known, pages)
    decreases |entries|
  {
    if entries != [] {
      var front := entries[..|entries| - 1];
      var t := entries[|entries| - 1];
      ChildrenAreListed(front, fileMap, lookup, known, pages);
      assert entries == front + [t];
      ChildrenStep(front, t, fileMap, lookup, known, pages);
    }
  }

  /**
   * For distinct, non-empty file names: each section's children are exactly
   * its entries whose title is among the first `min(|flat|, |pdfs|)`
   * flattened titles, in entry order, and each child's page is the start
   * page of the file at the title's (last) flattened position.
   */
  lemma OutlineBookmarks(structure: seq<Section>, pdfs: seq<string>, pages: seq<nat>, k: nat)
    requires |pages| == |pdfs| && NoDuplicates(pdfs) && forall f :: f in pdfs ==> f != ""
    requires k < |structure|
    ensures var flat := Flatten(structure); var n := Min(|flat|, |pdfs|);
      var kids := OutlineOf(structure, pdfs, pages)[k].children;
      BookmarkTitles(kids) == Listed(structure[k].entries, flat[..n]) && PagesMatch(kids, flat[..n], pages)
  {
    var flat := Flatten(structure);
    var n := Min(|flat|, |pdfs|);
    var fileMap, lookup := FileMap(flat, pdfs), StartPages(pdfs, pages);
    forall t | true
      ensures TitleFacts(t, fileMap, lookup, flat[..n], pages)
    {
      BookmarkOfTitle(structure, pdfs, pages, t);
    }
    ChildrenAreListed(structure[k].entries, fileMap, lookup, flat[..n], pages);
  }

  /** The outline has one parent per section, in structure order, titled as the section. */
  lemma OutlineParents(structure: seq<Section>, pdfs: seq<string>, pages: seq<nat>, k: nat)
    requires |pages| == |pdfs| && k < |structure|
    ensures OutlineOf(structure, pdfs, pages)[k].title == structure[k].title
    ensures OutlineOf(structure, pdfs, pages)[k].children
         == Children(structure[k].entries, FileMap(Flatten(structure), pdfs), StartPages(pdfs, pages))
  {
  }
}
