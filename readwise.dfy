/** The Readwise source (src/sources/readwise.ts): API highlights grouped
    by book, the candidate book ids, and one bookmark per article or tweet
    book, its highlights sorted by location. The client's fetches are
    inputs: the books and highlights it returned, and `getBookById` as a
    total function from id to book. */
module Readwise {
  import opened Types
  import opened Seqs
  import opened Text
  import opened Hash

  datatype Tag = Tag(name: string)

  /** A highlight as the API returns it. */
  datatype ApiHighlight = ApiHighlight(
    id: string,
    location: int,
    text: string,
    tags: seq<Tag>,
    bookId: nat,
    highlightedAt: string)

  /** A book as the API returns it. */
  datatype Book = Book(
    id: nat,
    title: string,
    category: string,
    author: string,
    sourceUrl: Option<string>,
    updated: string)

  /** A highlight record with the `location` it is sorted by. */
  datatype Located = Located(location: int, highlight: Highlight)

  function TagName(t: Tag): string {
    t.name
  }

  function LocationOf(l: Located): int {
    l.location
  }

  function Unlocated(l: Located): Highlight {
    l.highlight
  }

  /** The record pushed for one API highlight. */
  function ToHighlight(h: ApiHighlight): Located {
    Located(h.location, Highlight(
      HashOf(h.id),
      h.text,
      if |h.tags| > 0 then Some(Map(h.tags, TagName)) else None,
      [],
      Some(Parsed(h.highlightedAt))))
  }

  /** The key a highlight is filed under: the id of the book
      `getBookById(book_id)` returns. */
  function GroupKey(bookById: nat -> Book): ApiHighlight -> int {
    (h: ApiHighlight) => bookById(h.bookId).id
  }

  /** `highlightsByBook[k] || []` */
  function Group(byBook: map<nat, seq<Located>>, k: nat): seq<Located> {
    if k in byBook then byBook[k] else []
  }

  /** `highlightsByBook` after the loop over `hs`. */
  function Grouped(hs: seq<ApiHighlight>, bookById: nat -> Book): map<nat, seq<Located>>
    decreases |hs|
  {
    if hs == [] then map[]
    else
      var g := Grouped(hs[..|hs| - 1], bookById);
      var h := hs[|hs| - 1];
      var k := bookById(h.bookId).id;
      g[k := Group(g, k) + [ToHighlight(h)]]
  }

  /** Each book's list holds the records of exactly the highlights filed
      under its id, in API order; a book has a list exactly when some
      highlight is filed under it. */
  lemma {:induction false} GroupedLists(hs: seq<ApiHighlight>, bookById: nat -> Book, k: nat)
    ensures Group(Grouped(hs, bookById), k) == Map(WithKey(hs, GroupKey(bookById), k), ToHighlight)
    ensures k in Grouped(hs, bookById) <==> WithKey(hs, GroupKey(bookById), k) != []
    decreases |hs|
  {
    if hs != [] {
      var init, h := hs[..|hs| - 1], hs[|hs| - 1];
      var key := GroupKey(bookById);
      assert hs == init + [h];
      var g := Grouped(init, bookById);
      var kh := bookById(h.bookId).id;
      assert Grouped(hs, bookById) == g[kh := Group(g, kh) + [ToHighlight(h)]];
      GroupedLists(init, bookById, k);
      WithKeyAppend(init, [h], key, k);
      assert [h][1..] == [] && WithKey([], key, k) == [];
      assert WithKey([h], key, k) == if kh == k then [h] else [];
      GroupStep(g, kh, h, WithKey(init, key, k), k);
    }
  }

  /** Filing one more highlight under `kh` extends that list only. */
  lemma GroupStep(g: map<nat, seq<Located>>, kh: nat, h: ApiHighlight, w: seq<ApiHighlight>, k: nat)
    requires Group(g, k) == Map(w, ToHighlight) && (k in g <==> w != [])
    ensures var g' := g[kh := Group(g, kh) + [ToHighlight(h)]];
      var w' := w + (if kh == k then [h] else []);
      Group(g', k) == Map(w', ToHighlight) && (k in g' <==> w' != [])
  {
    if kh == k {
      MapAppend(w, [h], ToHighlight);
    } else {
      assert w + [] == w;
    }
  }

  /** The source's `for (const highlight of highlights)` loop. */
  method GroupByBook(highlights: seq<ApiHighlight>, bookById: nat -> Book) returns (byBook: map<nat, seq<Located>>)
    ensures byBook == Grouped(highlights, bookById)
  {
    byBook := map[];
    for i := 0 to |highlights|
      invariant byBook == Grouped(highlights[..i], bookById)
    {
      assert highlights[..i + 1][..i] == highlights[..i];
      var h := highlights[i];
      var book := bookById(h.bookId);
      var list := if book.id in byBook then byBook[book.id] else [];
      list := list + [ToHighlight(h)];
      byBook := byBook[book.id := list];
    }
    assert highlights[..|highlights|] == highlights;
  }

  function BookId(b: Book): nat {
    b.id
  }

  function HighlightBookId(h: ApiHighlight): nat {
    h.bookId
  }

  /** `[...bookIds]`: the ids of the fetched books, then the `book_id` of
      every highlight, each once, in first-insertion order. */
  function CandidateIds(books: seq<Book>, highlights: seq<ApiHighlight>): seq<nat> {
    Dedupe(Map(books, BookId) + Map(highlights, HighlightBookId))
  }

  /** `ids.add(x)` for each `x` of `xs`, in order, on a set kept in
      insertion order. */
  method AddEach(ids0: seq<nat>, ghost seen: seq<nat>, xs: seq<nat>) returns (ids: seq<nat>)
    requires ids0 == Dedupe(seen)
    ensures ids == Dedupe(seen + xs)
  {
    ids := ids0;
    assert seen + xs[..0] == seen;
    for i := 0 to |xs|
      invariant ids == Dedupe(seen + xs[..i])
    {
      var x := xs[i];
      assert Dedupe(seen + xs[..i + 1]) == if x in ids then ids else ids + [x] by {
        assert seen + xs[..i + 1] == (seen + xs[..i]) + [x];
        DedupeSnoc(seen + xs[..i], x);
      }
      if x !in ids {
        ids := ids + [x];
      }
    }
    assert xs[..|xs|] == xs;
  }

  /** The source's `new Set(books.map(...))` and `forEach(... add ...)`. */
  method BookIds(books: seq<Book>, highlights: seq<ApiHighlight>) returns (ids: seq<nat>)
    ensures ids == CandidateIds(books, highlights)
  {
    var a := Map(books, BookId);
    ids := AddEach([], [], a);
    assert [] + a == a;
    ids := AddEach(ids, a, Map(highlights, HighlightBookId));
  }

  /** The ids are the union of the two sources of ids, without repeats, and
      the fetched books' ids come first in their own order. */
  lemma CandidateIdsUnion(books: seq<Book>, highlights: seq<ApiHighlight>)
    ensures var ids := CandidateIds(books, highlights);
      && NoDup(ids)
      && (forall id :: id in ids <==> (exists b :: b in books && b.id == id) || (exists h :: h in highlights && h.bookId == id))
      && Dedupe(Map(books, BookId)) <= ids
  {
    var a, b := Map(books, BookId), Map(highlights, HighlightBookId);
    DedupePrefix(a, b);
    forall id ensures id in a <==> exists bk :: bk in books && bk.id == id {
      if id in a {
        var i :| 0 <= i < |a| && a[i] == id;
        assert books[i] in books;
      }
    }
    forall id ensures id in b <==> exists h :: h in highlights && h.bookId == id {
      if id in b {
        var i :| 0 <= i < |b| && b[i] == id;
        assert highlights[i] in highlights;
      }
    }
  }

  /** The `author` property: `[[author]]`, or unset for an empty author. */
  function AuthorLink(author: string): Value {
    if author != "" then Str("[[" + author + "]]") else Undef
  }

  /** The `match(book)`: a bookmark for an article or a tweet, nothing for
      any other category. */
  function ToBookmark(byBook: map<nat, seq<Located>>): Book -> Option<Bookmark> {
    (book: Book) =>
      if book.category == "articles" || book.category == "tweets" then
        Some(Bookmark(
          HashOf(if Present(book.sourceUrl) then book.sourceUrl.value else Decimal(book.id)),
          book.title,
          book.sourceUrl,
          Some(if book.category == "articles" then ["article", "readwise"] else ["twitter", "readwise"]),
          [("author", AuthorLink(book.author))],
          if book.id in byBook then Some(Map(SortBy(byBook[book.id], LocationOf), Unlocated)) else None,
          if book.updated != "" then Some(Parsed(book.updated)) else None))
      else None
  }

  /** `.filter((b) => b)`: the bookmarks made, in order. */
  function Made(xs: seq<Option<Bookmark>>): (r: seq<Bookmark>)
    ensures forall b :: b in r <==> Some(b) in xs
  {
    if xs == [] then []
    else (if xs[0].Some? then [xs[0].value] else []) + Made(xs[1..])
  }

  /** `getBookmarks()` once the client's results are known. */
  function Bookmarks(books: seq<Book>, highlights: seq<ApiHighlight>, bookById: nat -> Book): seq<Bookmark> {
    var byBook := Grouped(highlights, bookById);
    Made(Map(Map(CandidateIds(books, highlights), bookById), ToBookmark(byBook)))
  }

  /** The source's `getBookmarks`. */
  method GetBookmarks(books: seq<Book>, highlights: seq<ApiHighlight>, bookById: nat -> Book) returns (r: seq<Bookmark>)
    ensures r == Bookmarks(books, highlights, bookById)
  {
    var byBook := GroupByBook(highlights, bookById);
    var ids := BookIds(books, highlights);
    r := Made(Map(Map(ids, bookById), ToBookmark(byBook)));
  }

  /** The bookmark of a book: only articles and tweets make one; the hash is
      that of the source URL, or of the id when there is no URL; the tags
      name the category and the source; the author is linked when set. */
  lemma BookmarkFields(byBook: map<nat, seq<Located>>, book: Book)
    ensures var r := ToBookmark(byBook)(book);
      && (r.Some? <==> book.category == "articles" || book.category == "tweets")
      && (r.Some? ==>
            && r.value.hash == HashOf(if Present(book.sourceUrl) then book.sourceUrl.value else Decimal(book.id))
            && r.value.url == book.sourceUrl && r.value.title == book.title
            && r.value.tags == Some([if book.category == "articles" then "article" else "twitter", "readwise"])
            && Get(r.value.properties, "author") == (if book.author == "" then Undef else Str("[[" + book.author + "]]"))
            && (r.value.highlights.None? <==> book.id !in byBook)
            && (r.value.created.Some? <==> book.updated != ""))
  {
    var p := [("author", AuthorLink(book.author))];
    assert p[1..] == [];
  }

  /** A book's highlights come sorted by location; highlights at the same
      location keep their API order; none is lost or added. */
  lemma BookmarkHighlightsSorted(byBook: map<nat, seq<Located>>, book: Book)
    requires book.id in byBook
    ensures var s := SortBy(byBook[book.id], LocationOf);
      && SortedBy(s, LocationOf)
      && multiset(s) == multiset(byBook[book.id])
      && (forall k :: WithKey(s, LocationOf, k) == WithKey(byBook[book.id], LocationOf, k))
  {
    forall k ensures WithKey(SortBy(byBook[book.id], LocationOf), LocationOf, k) == WithKey(byBook[book.id], LocationOf, k) {
      SortByStable(byBook[book.id], LocationOf, k);
    }
  }

  /** The record of each API highlight: hashed id, text, tag names (unset
      for no tags), no properties, and the highlight time. */
  lemma HighlightFields(h: ApiHighlight)
    ensures var r := ToHighlight(h).highlight;
      && r.hash == HashOf(h.id) && r.text == h.text && r.properties == []
      && r.created == Some(Parsed(h.highlightedAt))
      && (r.tags.None? <==> h.tags == [])
      && (r.tags.Some? ==> |r.tags.value| == |h.tags| && forall i :: 0 <= i < |h.tags| ==> r.tags.value[i] == h.tags[i].name)
  {
  }

  /** Every highlight of an article or tweet book ends up in the bookmark
      of that book. */
  lemma HighlightReachesBookmark(books: seq<Book>, highlights: seq<ApiHighlight>, bookById: nat -> Book, h: ApiHighlight)
    requires h in highlights
    requires bookById(h.bookId).category == "articles" || bookById(h.bookId).category == "tweets"
    ensures exists b :: b in Bookmarks(books, highlights, bookById) && b.highlights.Some? &&
                        ToHighlight(h).highlight in b.highlights.value
  {
    var byBook := Grouped(highlights, bookById);
    var book := bookById(h.bookId);
    BookmarkOfIdMade(books, highlights, bookById, h.bookId);
    HighlightInGroup(highlights, bookById, h);
    var b := ToBookmark(byBook)(book).value;
    SortedKeeps(byBook[book.id], ToHighlight(h));
    assert b.highlights.value == Map(SortBy(byBook[book.id], LocationOf), Unlocated);
  }

  /** A candidate id whose book is an article or tweet has its bookmark
      among the results. */
  lemma BookmarkOfIdMade(books: seq<Book>, highlights: seq<ApiHighlight>, bookById: nat -> Book, id: nat)
    requires id in Map(highlights, HighlightBookId)
    requires bookById(id).category == "articles" || bookById(id).category == "tweets"
    ensures ToBookmark(Grouped(highlights, bookById))(bookById(id)).Some?
    ensures ToBookmark(Grouped(highlights, bookById))(bookById(id)).value in Bookmarks(books, highlights, bookById)
  {
    var byBook := Grouped(highlights, bookById);
    var ids := CandidateIds(books, highlights);
    assert id in ids;
    var i :| 0 <= i < |ids| && ids[i] == id;
    var mapped := Map(Map(ids, bookById), ToBookmark(byBook));
    assert mapped[i] == ToBookmark(byBook)(bookById(id));
    assert Some(ToBookmark(byBook)(bookById(id)).value) in mapped;
  }

  /** The record of a highlight is in the list of the book it is filed
      under. */
  lemma HighlightInGroup(highlights: seq<ApiHighlight>, bookById: nat -> Book, h: ApiHighlight)
    requires h in highlights
    ensures var k := bookById(h.bookId).id;
      k in Grouped(highlights, bookById) && ToHighlight(h) in Grouped(highlights, bookById)[k]
  {
    var k := bookById(h.bookId).id;
    GroupedLists(highlights, bookById, k);
    WithKeyHas(highlights, GroupKey(bookById), h);
    var w := WithKey(highlights, GroupKey(bookById), k);
    var j :| 0 <= j < |w| && w[j] == h;
    assert Map(w, ToHighlight)[j] == ToHighlight(h);
  }

  lemma SortedKeeps(s: seq<Located>, x: Located)
    requires x in s
    ensures x.highlight in Map(SortBy(s, LocationOf), Unlocated)
  {
    var sorted := SortBy(s, LocationOf);
    assert x in multiset(s);
    assert x in multiset(sorted);
    var k :| 0 <= k < |sorted| && sorted[k] == x;
    assert Map(sorted, Unlocated)[k] == x.highlight;
  }

  lemma {:induction false} WithKeyHas<T(!new)>(s: seq<T>, key: T -> int, x: T)
    requires x in s
    ensures x in WithKey(s, key, key(x))
    decreases |s|
  {
    if s[0] != x {
      WithKeyHas(s[1..], key, x);
    }
  }

  /** `setLastSync`: the settings entry written, `String(Date.now())`. */
  function LastSync(now: nat): (string, string) {
    ("rwLastSync", Decimal(now))
  }

  /** The stamp written is the time the constructor reads back with
      `parseInt(rwLastSync)` on the next start. */
  lemma LastSyncReadsBack(now: nat)
    ensures LastSync(now).0 == "rwLastSync" && ParseInt(LastSync(now).1) == Some(now)
  {
    ParseIntDecimal(now, "");
    assert Decimal(now) + "" == Decimal(now);
  }
}
