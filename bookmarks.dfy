/** The sequential half of src/sources/source.ts: `createBookmark` (find the
    page by hash and refresh its tags, or create it; then file the
    highlights in order), `createBookmarks` (the bookmarks in order) and
    `sync`. An exception stops the loop it is thrown in and every loop
    around it: nothing catches it. */
module Bookmarks {
  import opened Types
  import opened Text
  import opened Tags
  import opened PropertyBlock
  import opened Host
  import opened Pages
  import opened Source

  /** Steps run in order until one fails; the failure is the result, and the
      steps after it are not run. */
  function Chain<X>(t: Tree, xs: seq<X>, step: (Tree, X) -> (Tree, Outcome)): (Tree, Outcome)
    decreases |xs|
  {
    if xs == [] then (t, Done)
    else
      var (u, o) := step(t, xs[0]);
      if o.Failed? then (u, o) else Chain(u, xs[1..], step)
  }

  /** Running a prefix first and then the rest is the same as running all. */
  lemma {:induction false} ChainSplit<X>(t: Tree, xs: seq<X>, k: nat, step: (Tree, X) -> (Tree, Outcome))
    requires k < |xs|
    requires Chain(t, xs[..k], step).1.Done?
    ensures var (u, o) := step(Chain(t, xs[..k], step).0, xs[k]);
      Chain(t, xs[..k + 1], step) == (if o.Failed? then (u, o) else (u, Done))
    decreases k
  {
    if k > 0 {
      var (u, o) := step(t, xs[0]);
      assert xs[..k][0] == xs[0] && xs[..k][1..] == xs[1..][..k - 1];
      assert xs[..k + 1][0] == xs[0] && xs[..k + 1][1..] == xs[1..][..k];
      ChainSplit(u, xs[1..], k - 1, step);
    }
  }

  /** A failed run failed in some step `k`: every step before it completed,
      the result is what step `k` left, and no later step ran. */
  lemma {:induction false} ChainStops<X>(t: Tree, xs: seq<X>, step: (Tree, X) -> (Tree, Outcome))
    requires Chain(t, xs, step).1.Failed?
    ensures exists k :: 0 <= k < |xs| && Chain(t, xs[..k], step).1.Done? &&
                        Chain(t, xs, step) == step(Chain(t, xs[..k], step).0, xs[k])
    decreases |xs|
  {
    var (u, o) := step(t, xs[0]);
    if o.Failed? {
      assert xs[..0] == [];
      assert Chain(t, xs[..0], step).1.Done? && Chain(t, xs, step) == step(Chain(t, xs[..0], step).0, xs[0]);
    } else {
      ChainStops(u, xs[1..], step);
      var k :| 0 <= k < |xs[1..]| && Chain(u, xs[1..][..k], step).1.Done? &&
               Chain(u, xs[1..], step) == step(Chain(u, xs[1..][..k], step).0, xs[1..][k]);
      assert xs[..k + 1][0] == xs[0] && xs[..k + 1][1..] == xs[1..][..k];
      assert Chain(t, xs[..k + 1], step) == Chain(u, xs[1..][..k], step);
      assert Chain(t, xs[..k + 1], step).1.Done? && Chain(t, xs, step) == step(Chain(t, xs[..k + 1], step).0, xs[k + 1]);
    }
  }

  /** A completed run completed every step, each on the store the steps
      before it left. */
  lemma {:induction false} ChainCompletes<X>(t: Tree, xs: seq<X>, step: (Tree, X) -> (Tree, Outcome), k: nat)
    requires Chain(t, xs, step).1.Done? && k < |xs|
    ensures Chain(t, xs[..k], step).1.Done? && step(Chain(t, xs[..k], step).0, xs[k]).1.Done?
    decreases k
  {
    var (u, o) := step(t, xs[0]);
    assert xs[..k + 1][0] == xs[0];
    if k == 0 {
      assert xs[..0] == [];
    } else {
      ChainCompletes(u, xs[1..], step, k - 1);
      assert xs[..k][0] == xs[0] && xs[..k][1..] == xs[1..][..k - 1];
    }
  }

  /** `createHighlight` as one step of a chain. */
  function HighlightStep(rp: Reader, journal: Date -> string, hash: string): (Tree, Highlight) -> (Tree, Outcome) {
    (u: Tree, h: Highlight) => AfterCreateHighlight(u, rp, journal, hash, h)
  }

  /** The highlights of a bookmark, filed in order. */
  function AfterHighlights(t: Tree, rp: Reader, journal: Date -> string, hash: string, hs: seq<Highlight>): (Tree, Outcome) {
    Chain(t, hs, HighlightStep(rp, journal, hash))
  }

  /** `{tags, url, created, ...bookmark.properties}`: the record a new page
      is created with. */
  function CreationProps(journal: Date -> string, b: Bookmark): Properties {
    Spread([("tags", if b.tags.Some? then List(b.tags.value) else Undef),
            ("url", OfOption(b.url)),
            ("created", if b.created.Some? then Str(journal(b.created.value)) else Undef)],
           b.properties)
  }

  /** The page step of `createBookmark`: a page with the bookmark's hash
      only has its tags refreshed (when the bookmark has tags); otherwise
      the page is created. */
  function AfterBookmarkPage(t: Tree, rp: Reader, journal: Date -> string, b: Bookmark): (Tree, Outcome) {
    match PageByHash(t, rp, b.hash)
    case Some(page) =>
      if b.tags.Some? then AfterUpsertPageProperties(t, rp, ByPage(page), [("tags", List(b.tags.value))])
      else (t, Done)
    case None =>
      var (u, r) := AfterCreatePage(t, rp, b.hash, b.title, CreationProps(journal, b));
      (u, if r.Err? then Failed(r.error) else Done)
  }

  /** `createBookmark(bookmark)`: the store after the call and its outcome. */
  function AfterCreateBookmark(t: Tree, rp: Reader, journal: Date -> string, b: Bookmark): (Tree, Outcome) {
    var (u, o) := AfterBookmarkPage(t, rp, journal, b);
    if o.Failed? || b.highlights.None? then (u, o)
    else AfterHighlights(u, rp, journal, b.hash, b.highlights.value)
  }

  /** `createBookmark` as one step of a chain. */
  function BookmarkStep(rp: Reader, journal: Date -> string): (Tree, Bookmark) -> (Tree, Outcome) {
    (u: Tree, b: Bookmark) => AfterCreateBookmark(u, rp, journal, b)
  }

  /** `createBookmarks(bookmarks)`: the bookmarks in order. */
  function AfterCreateBookmarks(t: Tree, rp: Reader, journal: Date -> string, bs: seq<Bookmark>): (Tree, Outcome) {
    Chain(t, bs, BookmarkStep(rp, journal))
  }

  /** The source's `createBookmark`, on the store. */
  method CreateBookmark(s: Store, b: Bookmark) returns (o: Outcome)
    requires s.Valid()
    modifies s
    ensures s.Valid()
    ensures (s.State(), o) == AfterCreateBookmark(old(s.State()), s.readProp, s.journal, b)
  {
    ghost var t := s.State();
    ghost var step := AfterBookmarkPage(t, s.readProp, s.journal, b);
    var page := GetPage(s.State(), s.readProp, ByHash(b.hash));
    o := Done;
    if page.Some? {
      if b.tags.Some? {
        o := UpsertPageProperties(s, ByPage(page.value), [("tags", List(b.tags.value))]);
      }
    } else {
      var r := CreatePage(s, b.hash, b.title, CreationProps(s.journal, b));
      if r.Err? {
        assert step == (s.State(), Failed(r.error));
        return Failed(r.error);
      }
    }
    assert step == (s.State(), o);
    if o.Failed? || b.highlights.None? {
      return;
    }
    o := CreateHighlights(s, b, b.highlights.value);
  }

  /** The `for (const highlight of bookmark.highlights)` loop of
      `createBookmark`. */
  method CreateHighlights(s: Store, b: Bookmark, hs: seq<Highlight>) returns (o: Outcome)
    requires s.Valid()
    modifies s
    ensures s.Valid()
    ensures (s.State(), o) == AfterHighlights(old(s.State()), s.readProp, s.journal, b.hash, hs)
  {
    ghost var t1 := s.State();
    for i := 0 to |hs|
      invariant s.Valid()
      invariant AfterHighlights(s.State(), s.readProp, s.journal, b.hash, hs[i..])
             == AfterHighlights(t1, s.readProp, s.journal, b.hash, hs)
    {
      assert hs[i..][0] == hs[i] && hs[i..][1..] == hs[i + 1..];
      o := CreateHighlight(s, b, hs[i]);
      if o.Failed? {
        return;
      }
    }
    o := Done;
  }

  /** The source's `createBookmarks`, on the store. */
  method CreateBookmarks(s: Store, bs: seq<Bookmark>) returns (o: Outcome)
    requires s.Valid()
    modifies s
    ensures s.Valid()
    ensures (s.State(), o) == AfterCreateBookmarks(old(s.State()), s.readProp, s.journal, bs)
  {
    ghost var t0 := s.State();
    for i := 0 to |bs|
      invariant s.Valid()
      invariant AfterCreateBookmarks(s.State(), s.readProp, s.journal, bs[i..])
             == AfterCreateBookmarks(t0, s.readProp, s.journal, bs)
    {
      assert bs[i..][0] == bs[i] && bs[i..][1..] == bs[i + 1..];
      o := CreateBookmark(s, bs[i]);
      if o.Failed? {
        return;
      }
    }
    o := Done;
  }

  /** Each key of the new page's record: `bookmark.properties` overrides,
      then `created` (the journal link), `url`, `tags`, and `hash` last of
      all; any other key is unset. */
  lemma CreationPropsGet(journal: Date -> string, b: Bookmark, k: string)
    ensures Get(Spread([("hash", Str(b.hash))], CreationProps(journal, b)), k) ==
      if k in Keys(b.properties) then Get(b.properties, k)
      else if k == "created" then (if b.created.Some? then Str(journal(b.created.value)) else Undef)
      else if k == "url" then OfOption(b.url)
      else if k == "tags" then (if b.tags.Some? then List(b.tags.value) else Undef)
      else if k == "hash" then Str(b.hash)
      else Undef
  {
    var tv := if b.tags.Some? then List(b.tags.value) else Undef;
    var cv := if b.created.Some? then Str(journal(b.created.value)) else Undef;
    var base := [("tags", tv), ("url", OfOption(b.url)), ("created", cv)];
    var cp := CreationProps(journal, b);
    var hp := [("hash", Str(b.hash))];
    assert cp == Spread(base, b.properties);
    SpreadGet(hp, cp, k);
    SpreadGet(base, b.properties, k);
    SpreadKeys(base, b.properties);
    BaseGet(tv, OfOption(b.url), cv, k);
    assert Get(hp, k) == if k == "hash" then Str(b.hash) else Undef by {
      assert hp[1..] == [];
    }
  }

  lemma BaseGet(tv: Value, uv: Value, cv: Value, k: string)
    ensures var base := [("tags", tv), ("url", uv), ("created", cv)];
      && Keys(base) == ["tags", "url", "created"]
      && Get(base, k) == if k == "created" then cv else if k == "url" then uv else if k == "tags" then tv else Undef
  {
    var e0, e1, e2 := ("tags", tv), ("url", uv), ("created", cv);
    GetAppend([], e0.0, e0.1);
    GetAppend([e0], e1.0, e1.1);
    GetAppend([e0, e1], e2.0, e2.1);
    assert [] + [e0] == [e0] && [e0] + [e1] == [e0, e1] && [e0, e1] + [e2] == [e0, e1, e2];
  }

  /** A page with the bookmark's hash keeps its title and gets no new page:
      without tags nothing is written; with tags the one write is the tags
      step on its properties block, which fails, writing nothing, when the
      page has no blocks. */
  lemma BookmarkExistingPage(t: Tree, rp: Reader, journal: Date -> string, b: Bookmark)
    requires WellFormed(t) && PageByHash(t, rp, b.hash).Some?
    ensures var (u, o) := AfterBookmarkPage(t, rp, journal, b);
      var page := PageByHash(t, rp, b.hash).value;
      var ks := KidsOf(t, Root(page));
      && u.titles == t.titles
      && (b.tags.None? ==> u == t && o.Done?)
      && (b.tags.Some? && ks == [] ==> u == t && o == Failed("Page properties do not exist"))
      && (b.tags.Some? && ks != [] ==>
            var c := ContentOf(t, ks[0]);
            && o.Done?
            && Head(u, page) == Some(ApplyProp(c, "tags", Str(TagsText(MergeTags(rp(c, "tags"), List(b.tags.value))))))
            && (forall x :: x != ks[0] ==> ContentOf(u, x) == ContentOf(t, x))
            && u.nextId == t.nextId && (forall q :: KidsOf(u, q) == KidsOf(t, q))
            && WellFormed(u) && Grows(t, u))
  {
    var page := PageByHash(t, rp, b.hash).value;
    if b.tags.Some? {
      var props := [("tags", List(b.tags.value))];
      UpsertPagePropertiesFails(t, rp, ByPage(page), props);
      if KidsOf(t, Root(page)) != [] {
        UpsertPagePropertiesWrites(t, rp, page, props);
        var c := ContentOf(t, KidsOf(t, Root(page))[0]);
        UpsertOnlyTags(c, rp(c, "tags"), b.tags.value);
      }
    }
  }

  /** Without such a page, the page is created with `{hash, tags, url,
      created, ...properties}`, and the step fails exactly when page creation
      fails. */
  lemma BookmarkNewPage(t: Tree, rp: Reader, journal: Date -> string, b: Bookmark)
    requires WellFormed(t) && PageByHash(t, rp, b.hash).None?
    ensures var (u, o) := AfterBookmarkPage(t, rp, journal, b);
      var name := PageTitle(t, rp, b.hash, b.title);
      && (o.Failed? <==> name == "" || name in t.titles)
      && (o.Failed? ==> u == t && o.error == "Error creating page: " + b.title)
      && (o.Done? ==>
            && u.titles == t.titles + [name]
            && Head(u, |t.titles|) == Some(UpsertContent("", rp("", "tags"), Spread([("hash", Str(b.hash))], CreationProps(journal, b))))
            && (forall i :: 0 <= i < |t.titles| ==> Head(u, i) == Head(t, i))
            && (forall q :: q in t.kids ==> KidsOf(u, q) == KidsOf(t, q))
            && WellFormed(u) && OnlyAdds(t, u))
  {
    CreatePageEffect(t, rp, b.hash, b.title, CreationProps(journal, b));
  }

  /** Filing highlights only adds blocks, and keeps titles and properties
      blocks. */
  lemma {:induction false} HighlightsOnlyAdd(t: Tree, rp: Reader, journal: Date -> string, hash: string, hs: seq<Highlight>)
    requires WellFormed(t)
    ensures var u := AfterHighlights(t, rp, journal, hash, hs).0;
      && WellFormed(u) && OnlyAdds(t, u) && u.titles == t.titles
      && forall p :: 0 <= p < |t.titles| ==> Head(u, p) == Head(t, p)
    decreases |hs|
  {
    if hs == [] {
      OnlyAddsRefl(t);
    } else {
      var (u1, o1) := AfterCreateHighlight(t, rp, journal, hash, hs[0]);
      HighlightOnlyAdds(t, rp, journal, hash, hs[0]);
      if o1.Done? {
        HighlightsOnlyAdd(u1, rp, journal, hash, hs[1..]);
        OnlyAddsTrans(t, u1, AfterHighlights(u1, rp, journal, hash, hs[1..]).0);
      }
    }
  }

  lemma {:induction false} HighlightsKeepRecorded(t: Tree, rp: Reader, journal: Date -> string, hash: string, hs: seq<Highlight>, link: string, quoted: string)
    requires WellFormed(t) && Recorded(t, rp, hash, link, quoted)
    ensures Recorded(AfterHighlights(t, rp, journal, hash, hs).0, rp, hash, link, quoted)
    decreases |hs|
  {
    if hs != [] {
      var r1 := AfterCreateHighlight(t, rp, journal, hash, hs[0]);
      HighlightKeepsRecorded(t, rp, journal, hash, hs[0], link, quoted);
      HighlightOnlyAdds(t, rp, journal, hash, hs[0]);
      if r1.1.Done? {
        assert AfterHighlights(t, rp, journal, hash, hs) == AfterHighlights(r1.0, rp, journal, hash, hs[1..]);
        HighlightsKeepRecorded(r1.0, rp, journal, hash, hs[1..], link, quoted);
      } else {
        assert AfterHighlights(t, rp, journal, hash, hs) == r1;
      }
    }
  }

  /** After the highlights are filed without a failure, every one of them is
      recorded on the page. */
  lemma {:induction false} HighlightsRecorded(t: Tree, rp: Reader, journal: Date -> string, hash: string, hs: seq<Highlight>)
    requires WellFormed(t) && AfterHighlights(t, rp, journal, hash, hs).1.Done?
    ensures forall h :: h in hs ==> HighlightRecorded(AfterHighlights(t, rp, journal, hash, hs).0, rp, journal, hash, h)
    decreases |hs|
  {
    if hs != [] {
      var h0 := hs[0];
      var (u1, o1) := AfterCreateHighlight(t, rp, journal, hash, h0);
      var u := AfterHighlights(t, rp, journal, hash, hs).0;
      HighlightRecords(t, rp, journal, hash, h0);
      HighlightOnlyAdds(t, rp, journal, hash, h0);
      HighlightsRecorded(u1, rp, journal, hash, hs[1..]);
      HighlightsKeepRecorded(u1, rp, journal, hash, hs[1..], JournalLink(journal, h0.created), Quoted(h0.text));
      forall h | h in hs ensures HighlightRecorded(u, rp, journal, hash, h) {
        if h != h0 {
          assert h in hs[1..];
        }
      }
    }
  }

  /** The page step keeps the store well formed and only grows it. */
  lemma PageStepGrows(t: Tree, rp: Reader, journal: Date -> string, b: Bookmark)
    requires WellFormed(t)
    ensures var u1 := AfterBookmarkPage(t, rp, journal, b).0;
      WellFormed(u1) && Grows(t, u1)
  {
    OnlyAddsRefl(t);
    if PageByHash(t, rp, b.hash).Some? {
      BookmarkExistingPage(t, rp, journal, b);
    } else {
      BookmarkNewPage(t, rp, journal, b);
    }
  }

  /** A bookmark only grows the store: pages are added at the end, block
      lists only gain blocks, and the only content rewritten is a properties
      block. */
  lemma BookmarkGrows(t: Tree, rp: Reader, journal: Date -> string, b: Bookmark)
    requires WellFormed(t)
    ensures var u := AfterCreateBookmark(t, rp, journal, b).0;
      WellFormed(u) && Grows(t, u)
  {
    var r1 := AfterBookmarkPage(t, rp, journal, b);
    PageStepGrows(t, rp, journal, b);
    if r1.1.Done? && b.highlights.Some? {
      var u := AfterHighlights(r1.0, rp, journal, b.hash, b.highlights.value).0;
      assert AfterCreateBookmark(t, rp, journal, b).0 == u;
      HighlightsOnlyAdd(r1.0, rp, journal, b.hash, b.highlights.value);
      GrowsTrans(t, r1.0, u);
    } else {
      assert AfterCreateBookmark(t, rp, journal, b).0 == r1.0;
    }
  }

  /** A bookmark processed without a failure has every one of its
      highlights recorded on its page. */
  lemma BookmarkRecordsHighlights(t: Tree, rp: Reader, journal: Date -> string, b: Bookmark)
    requires WellFormed(t) && b.highlights.Some?
    requires AfterCreateBookmark(t, rp, journal, b).1.Done?
    ensures forall h :: h in b.highlights.value ==>
      HighlightRecorded(AfterCreateBookmark(t, rp, journal, b).0, rp, journal, b.hash, h)
  {
    var r1 := AfterBookmarkPage(t, rp, journal, b);
    PageStepGrows(t, rp, journal, b);
    assert r1.1.Done?;
    assert AfterCreateBookmark(t, rp, journal, b) == AfterHighlights(r1.0, rp, journal, b.hash, b.highlights.value);
    HighlightsRecorded(r1.0, rp, journal, b.hash, b.highlights.value);
  }

  /** Highlights that are all recorded already are filed again without a
      write and without a failure. */
  lemma {:induction false} HighlightsNoop(u: Tree, rp: Reader, journal: Date -> string, hash: string, hs: seq<Highlight>)
    requires forall h :: h in hs ==> HighlightRecorded(u, rp, journal, hash, h)
    ensures AfterHighlights(u, rp, journal, hash, hs) == (u, Done)
    decreases |hs|
  {
    if hs != [] {
      HighlightNoopWhenRecorded(u, rp, journal, hash, hs[0]);
      assert forall h :: h in hs[1..] ==> h in hs;
      HighlightsNoop(u, rp, journal, hash, hs[1..]);
    }
  }

  /** The tags step of a repeated `createBookmark` on page `p` of `u`
      writes the properties block back as it is: the page has one, and the
      block is settled for the merge of the tags the host reads back from it
      with the bookmark's tags. */
  predicate TagsIdle(u: Tree, rp: Reader, p: nat, ts: seq<string>) {
    && p < |u.titles| && KidsOf(u, Root(p)) != []
    && var c := ContentOf(u, KidsOf(u, Root(p))[0]);
       TagsSettled(c, TagsText(MergeTags(rp(c, "tags"), List(ts))))
  }

  /** The tags upsert on a page whose block is settled writes it back as it
      is and succeeds. */
  lemma TagsUpsertIdle(u: Tree, rp: Reader, p: nat, ts: seq<string>)
    requires WellFormed(u) && TagsIdle(u, rp, p, ts)
    ensures AfterUpsertPageProperties(u, rp, ByPage(p), [("tags", List(ts))]) == (u, Done)
  {
    var c := ContentOf(u, KidsOf(u, Root(p))[0]);
    UpsertOnlyTags(c, rp(c, "tags"), ts);
    TagsStepSettled(c, TagsText(MergeTags(rp(c, "tags"), List(ts))));
    UpsertWritesBack(u, rp, p, [("tags", List(ts))]);
  }

  /** The page step on such a store changes nothing and succeeds. */
  lemma PageStepIdle(u: Tree, rp: Reader, journal: Date -> string, b: Bookmark)
    requires WellFormed(u) && PageByHash(u, rp, b.hash).Some?
    requires b.tags.Some? ==> TagsIdle(u, rp, PageByHash(u, rp, b.hash).value, b.tags.value)
    ensures AfterBookmarkPage(u, rp, journal, b) == (u, Done)
  {
    if b.tags.Some? {
      TagsUpsertIdle(u, rp, PageByHash(u, rp, b.hash).value, b.tags.value);
    }
  }

  /** A bookmark processed a second time, on the store the first run left,
      writes nothing and succeeds, when the host finds its page again by
      hash and the tags step would write the block back as it is. */
  lemma BookmarkIdempotent(t: Tree, rp: Reader, journal: Date -> string, b: Bookmark)
    requires WellFormed(t) && AfterCreateBookmark(t, rp, journal, b).1.Done?
    requires var u := AfterCreateBookmark(t, rp, journal, b).0;
      && PageByHash(u, rp, b.hash).Some?
      && (b.tags.Some? ==> TagsIdle(u, rp, PageByHash(u, rp, b.hash).value, b.tags.value))
    ensures var u := AfterCreateBookmark(t, rp, journal, b).0;
      AfterCreateBookmark(u, rp, journal, b) == (u, Done)
  {
    var u := AfterCreateBookmark(t, rp, journal, b).0;
    BookmarkGrows(t, rp, journal, b);
    PageStepIdle(u, rp, journal, b);
    if b.highlights.Some? {
      BookmarkRecordsHighlights(t, rp, journal, b);
      HighlightsNoop(u, rp, journal, b.hash, b.highlights.value);
    }
  }

  /** The store after a first run keeps page `page`, its properties block
      `c2` and its title list through the highlights. */
  lemma AfterPageStepKept(m: Tree, rp: Reader, journal: Date -> string, b: Bookmark, t: Tree)
    requires WellFormed(m) && AfterBookmarkPage(t, rp, journal, b) == (m, Done)
    ensures var u := AfterCreateBookmark(t, rp, journal, b).0;
      && u.titles == m.titles
      && PageByHash(u, rp, b.hash) == PageByHash(m, rp, b.hash)
      && forall p :: 0 <= p < |m.titles| ==> Head(u, p) == Head(m, p)
  {
    var u := AfterCreateBookmark(t, rp, journal, b).0;
    if b.highlights.Some? {
      HighlightsOnlyAdd(m, rp, journal, b.hash, b.highlights.value);
    }
    PageByHashStable(m, u, rp, b.hash);
  }

  /** A page `q` that does not read back hash `h` does not share its first
      block with page `page`, which does; so a step that rewrites only that
      block keeps `q`'s properties block. */
  lemma OtherHeadKept(t: Tree, m: Tree, rp: Reader, h: string, page: nat, q: nat)
    requires KidsOf(t, Root(page)) != [] && PageProp(t, rp, page, "hash") == Str(h)
    requires PageProp(t, rp, q, "hash") != Str(h)
    requires KidsOf(m, Root(q)) == KidsOf(t, Root(q))
    requires forall x :: x != KidsOf(t, Root(page))[0] ==> ContentOf(m, x) == ContentOf(t, x)
    ensures Head(m, q) == Head(t, q)
  {
  }

  /** What a first run on an existing page needs the host to read back
      from the properties block its tags step rewrites: the hash, and, merged
      with the bookmark's tags, the tags text that was written, which holds
      no `$` and no line break. */
  predicate ExistingReadBack(t: Tree, rp: Reader, b: Bookmark) {
    match PageByHash(t, rp, b.hash)
    case None => true
    case Some(page) =>
      var ks := KidsOf(t, Root(page));
      b.tags.Some? && ks != [] ==>
        var c := ContentOf(t, ks[0]);
        var v := TagsText(MergeTags(rp(c, "tags"), List(b.tags.value)));
        var c2 := ApplyProp(c, "tags", Str(v));
        && '$' !in v && '\n' !in v
        && rp(c2, "hash") == Str(b.hash)
        && TagsText(MergeTags(rp(c2, "tags"), List(b.tags.value))) == v
  }

  /** The same for a first run that creates the page: the host reads the
      hash back from the new block; with tags, the tags line is the only
      property line holding `tags::`, and the tags text written, which holds
      no `$` and no line break, is read back as in the existing case. */
  predicate NewReadBack(rp: Reader, journal: Date -> string, b: Bookmark) {
    var props := Spread([("hash", Str(b.hash))], CreationProps(journal, b));
    var c := UpsertContent("", rp("", "tags"), props);
    var v := TagsText(MergeTags(rp("", "tags"), Get(props, "tags")));
    && rp(c, "hash") == Str(b.hash)
    && (b.tags.Some? ==>
          && Truthy(Get(props, "tags")) && '$' !in v && '\n' !in v
          && !Contains(OtherLines(props), "tags::")
          && TagsText(MergeTags(rp(c, "tags"), List(b.tags.value))) == v)
  }

  /** After a first run on an existing page, the page is found again by hash
      and, with tags, its properties block is settled. */
  lemma ExistingPageIdle(t: Tree, rp: Reader, journal: Date -> string, b: Bookmark)
    requires WellFormed(t) && PageByHash(t, rp, b.hash).Some?
    requires AfterCreateBookmark(t, rp, journal, b).1.Done? && ExistingReadBack(t, rp, b)
    ensures var u := AfterCreateBookmark(t, rp, journal, b).0;
      && PageByHash(u, rp, b.hash) == PageByHash(t, rp, b.hash)
      && (b.tags.Some? ==> TagsIdle(u, rp, PageByHash(t, rp, b.hash).value, b.tags.value))
  {
    var page := PageByHash(t, rp, b.hash).value;
    var ks := KidsOf(t, Root(page));
    var (m, o) := AfterBookmarkPage(t, rp, journal, b);
    BookmarkExistingPage(t, rp, journal, b);
    if b.tags.None? {
      AfterPageStepKept(m, rp, journal, b, t);
    } else {
      assert ks != [];
      var c := ContentOf(t, ks[0]);
      var ts := b.tags.value;
      var v := TagsText(MergeTags(rp(c, "tags"), List(ts)));
      var c2 := ApplyProp(c, "tags", Str(v));
      assert Head(m, page) == Some(c2);
      forall q | 0 <= q < page
        ensures PageProp(m, rp, q, "hash") != Str(b.hash)
      {
        OtherHeadKept(t, m, rp, b.hash, page, q);
      }
      PageByHashAt(m, rp, b.hash, page);
      AfterPageStepKept(m, rp, journal, b, t);
      TagsWriteSettles(c, v);
    }
  }

  /** A page appended with a block that reads back hash `h`, to a store
      where no page does, is the page found by `h`. */
  lemma NewPageFound(t: Tree, m: Tree, rp: Reader, h: string, c: string)
    requires PageByHash(t, rp, h).None? && rp(c, "hash") == Str(h)
    requires |m.titles| == |t.titles| + 1 && Head(m, |t.titles|) == Some(c)
    requires forall i :: 0 <= i < |t.titles| ==> Head(m, i) == Head(t, i)
    ensures PageByHash(m, rp, h) == Some(|t.titles|)
  {
    forall q | 0 <= q < |t.titles|
      ensures PageProp(m, rp, q, "hash") != Str(h)
    {
      assert PageProp(m, rp, q, "hash") == PageProp(t, rp, q, "hash");
    }
    PageByHashAt(m, rp, h, |t.titles|);
  }

  /** After a first run that created the page, the new page is found by hash
      and, with tags, its properties block is settled. */
  lemma NewPageIdle(t: Tree, rp: Reader, journal: Date -> string, b: Bookmark)
    requires WellFormed(t) && PageByHash(t, rp, b.hash).None?
    requires AfterCreateBookmark(t, rp, journal, b).1.Done? && NewReadBack(rp, journal, b)
    ensures var u := AfterCreateBookmark(t, rp, journal, b).0;
      && PageByHash(u, rp, b.hash) == Some(|t.titles|)
      && (b.tags.Some? ==> TagsIdle(u, rp, |t.titles|, b.tags.value))
  {
    var props := Spread([("hash", Str(b.hash))], CreationProps(journal, b));
    var c := UpsertContent("", rp("", "tags"), props);
    var (m, o) := AfterBookmarkPage(t, rp, journal, b);
    assert o.Done?;
    assert |m.titles| == |t.titles| + 1 && Head(m, |t.titles|) == Some(c)
        && (forall i :: 0 <= i < |t.titles| ==> Head(m, i) == Head(t, i)) && WellFormed(m) by {
      BookmarkNewPage(t, rp, journal, b);
    }
    NewPageFound(t, m, rp, b.hash, c);
    AfterPageStepKept(m, rp, journal, b, t);
    if b.tags.Some? {
      assert TagsSettled(c, TagsText(MergeTags(rp("", "tags"), Get(props, "tags")))) by {
        NewBlockSettles(rp("", "tags"), props);
      }
    }
  }

  /** `createBookmark` run twice on the same bookmark: the second run, on the
      store the first left, writes nothing and succeeds, so the page stays
      one page with the same properties block and no highlight is filed
      twice. */
  lemma BookmarkTwice(t: Tree, rp: Reader, journal: Date -> string, b: Bookmark)
    requires WellFormed(t) && AfterCreateBookmark(t, rp, journal, b).1.Done?
    requires ExistingReadBack(t, rp, b)
    requires PageByHash(t, rp, b.hash).None? ==> NewReadBack(rp, journal, b)
    ensures var u := AfterCreateBookmark(t, rp, journal, b).0;
      AfterCreateBookmark(u, rp, journal, b) == (u, Done)
  {
    if PageByHash(t, rp, b.hash).Some? {
      ExistingPageIdle(t, rp, journal, b);
    } else {
      NewPageIdle(t, rp, journal, b);
    }
    BookmarkIdempotent(t, rp, journal, b);
  }

  /** The bookmarks together only grow the store. */
  lemma {:induction false} BookmarksGrow(t: Tree, rp: Reader, journal: Date -> string, bs: seq<Bookmark>)
    requires WellFormed(t)
    ensures var u := AfterCreateBookmarks(t, rp, journal, bs).0;
      WellFormed(u) && Grows(t, u)
    decreases |bs|
  {
    if bs == [] {
      OnlyAddsRefl(t);
    } else {
      var r1 := AfterCreateBookmark(t, rp, journal, bs[0]);
      BookmarkGrows(t, rp, journal, bs[0]);
      if r1.1.Done? {
        BookmarksGrow(r1.0, rp, journal, bs[1..]);
        GrowsTrans(t, r1.0, AfterCreateBookmarks(r1.0, rp, journal, bs[1..]).0);
      }
    }
  }

  /** A failure from any bookmark ends `createBookmarks`: the bookmarks
      before it were all processed, and none after it is. */
  lemma BookmarksStop(t: Tree, rp: Reader, journal: Date -> string, bs: seq<Bookmark>)
    requires AfterCreateBookmarks(t, rp, journal, bs).1.Failed?
    ensures exists k :: 0 <= k < |bs| && AfterCreateBookmarks(t, rp, journal, bs[..k]).1.Done? &&
                        AfterCreateBookmarks(t, rp, journal, bs) == AfterCreateBookmark(AfterCreateBookmarks(t, rp, journal, bs[..k]).0, rp, journal, bs[k])
  {
    ChainStops(t, bs, BookmarkStep(rp, journal));
  }

  /** The same for the highlights of one bookmark. */
  lemma HighlightsStop(t: Tree, rp: Reader, journal: Date -> string, hash: string, hs: seq<Highlight>)
    requires AfterHighlights(t, rp, journal, hash, hs).1.Failed?
    ensures exists k :: 0 <= k < |hs| && AfterHighlights(t, rp, journal, hash, hs[..k]).1.Done? &&
                        AfterHighlights(t, rp, journal, hash, hs) == AfterCreateHighlight(AfterHighlights(t, rp, journal, hash, hs[..k]).0, rp, journal, hash, hs[k])
  {
    ChainStops(t, hs, HighlightStep(rp, journal, hash));
  }

  /** How `sync` ended: not run because the source is disabled, run to the
      end (and the last sync recorded), or stopped by an exception. */
  datatype SyncOutcome = Skipped | Synced | Stopped(error: string)

  /** The plugin's persisted settings, as a dictionary the sources write
      their last-sync stamp into. */
  class Settings {
    var entries: map<string, string>

    constructor(entries: map<string, string>)
      ensures this.entries == entries
    {
      this.entries := entries;
    }

    method Update(key: string, value: string)
      modifies this
      ensures entries == old(entries)[key := value]
    {
      entries := entries[key := value];
    }
  }

  /** `sync()`: `fetched` is what `getBookmarks` returned, or the exception
      it threw. */
  function AfterSync(t: Tree, rp: Reader, journal: Date -> string, enabled: bool, fetched: Result<seq<Bookmark>>): (Tree, SyncOutcome) {
    if !enabled then (t, Skipped)
    else
      match fetched
      case Err(e) => (t, Stopped(e))
      case Ok(bs) =>
        var (u, o) := AfterCreateBookmarks(t, rp, journal, bs);
        (u, if o.Failed? then Stopped(o.error) else Synced)
  }

  /** The source's `sync`: `stamp` is the settings entry the source's
      `setLastSync` writes, if any; it is written only after every bookmark
      was processed. */
  method Sync(s: Store, settings: Settings, enabled: bool, fetched: Result<seq<Bookmark>>, stamp: Option<(string, string)>)
    returns (r: SyncOutcome)
    requires s.Valid()
    modifies s, settings
    ensures s.Valid()
    ensures (s.State(), r) == AfterSync(old(s.State()), s.readProp, s.journal, enabled, fetched)
    ensures settings.entries == if r.Synced? && stamp.Some? then old(settings.entries)[stamp.value.0 := stamp.value.1]
                                else old(settings.entries)
  {
    if !enabled {
      return Skipped;
    }
    if fetched.Err? {
      return Stopped(fetched.error);
    }
    var o := CreateBookmarks(s, fetched.value);
    if o.Failed? {
      return Stopped(o.error);
    }
    if stamp.Some? {
      settings.Update(stamp.value.0, stamp.value.1);
    }
    r := Synced;
  }

  /** A disabled source writes nothing; an exception from `getBookmarks`
      writes nothing; otherwise the store is what `createBookmarks` left,
      and the sync completes exactly when every bookmark did. */
  lemma SyncOutcomes(t: Tree, rp: Reader, journal: Date -> string, enabled: bool, fetched: Result<seq<Bookmark>>)
    ensures var r := AfterSync(t, rp, journal, enabled, fetched);
      && (r.1.Skipped? <==> !enabled)
      && (r.1.Skipped? ==> r.0 == t)
      && (enabled && fetched.Err? ==> r == (t, Stopped(fetched.error)))
      && (enabled && fetched.Ok? ==>
            var c := AfterCreateBookmarks(t, rp, journal, fetched.value);
            r.0 == c.0 && (r.1.Synced? <==> c.1.Done?) && (c.1.Failed? ==> r.1 == Stopped(c.1.error)))
  {
    if enabled && fetched.Ok? {
      var c := AfterCreateBookmarks(t, rp, journal, fetched.value);
      assert AfterSync(t, rp, journal, enabled, fetched) == (c.0, if c.1.Failed? then Stopped(c.1.error) else Synced);
    }
  }

  /** When a bookmark throws, `sync` stops there: the bookmarks before it
      were processed, the later ones are not, and the last sync is not
      recorded. */
  lemma SyncStops(t: Tree, rp: Reader, journal: Date -> string, fetched: Result<seq<Bookmark>>)
    requires fetched.Ok?
    requires AfterSync(t, rp, journal, true, fetched).1.Stopped?
    ensures var bs := fetched.value;
      exists k :: 0 <= k < |bs| && AfterCreateBookmarks(t, rp, journal, bs[..k]).1.Done? &&
                  AfterSync(t, rp, journal, true, fetched).0
                    == AfterCreateBookmark(AfterCreateBookmarks(t, rp, journal, bs[..k]).0, rp, journal, bs[k]).0
  {
    BookmarksStop(t, rp, journal, fetched.value);
  }
}
