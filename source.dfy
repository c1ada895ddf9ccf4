/** The merge engine of src/sources/source.ts: `createHighlight` files one
    highlight under the page's `## highlights` block (in a date group when
    the highlight is dated), `createBookmark` finds or creates the page and
    files its highlights, `createBookmarks` and `sync` run a source's
    bookmarks in order. */
module Source {
  import opened Types
  import opened Seqs
  import opened Text
  import opened Tags
  import opened Host
  import opened Pages

  /** The content that marks the block the highlights are filed under. */
  const Heading: string := "## highlights"

  /** `"text"`: what a highlight block starts with, and what duplicates are
      recognized by. */
  function Quoted(text: string): string {
    "\"" + text + "\""
  }

  /** `tags ? ' ' + tags.map(getTagLink).join(' ') : ''` */
  function TagLinks(tags: Option<seq<string>>): string {
    match tags
    case None => ""
    case Some(ts) => " " + Join(" ", Map(ts, GetTagLink))
  }

  /** `created ? await getJournalLink(created) : ''` */
  function JournalLink(journal: Date -> string, created: Option<Date>): string {
    match created
    case None => ""
    case Some(d) => journal(d)
  }

  /** The block a highlight is filed as. */
  function Entry(h: Highlight): string {
    Quoted(h.text) + TagLinks(h.tags)
  }

  /** The last step: the entry becomes the last child of `group` unless one
      of `children` (the group's children) already starts with the quoted
      text. */
  function AddEntry(t: Tree, group: BlockId, children: seq<Block>, h: Highlight): Tree {
    if FindBlockByText(Some(children), Quoted(h.text)).Some? then t else AppendChild(t, group, Entry(h))
  }

  /** `createHighlight(bookmark, highlight)`: the store after the call and its
      outcome. The children of the blocks found are those of the tree read at
      the start; a block just created has none. */
  function AfterCreateHighlight(t: Tree, rp: Reader, journal: Date -> string, hash: string, h: Highlight): (Tree, Outcome) {
    var found := GetPageBlockByText(t, rp, ByHash(hash), Heading);
    var (t1, made) := if found.Some? then (t, Ok(found.value)) else AfterCreatePageBlock(t, rp, ByHash(hash), Heading);
    match made
    case Err(e) => (t1, Failed(e))
    case Ok(hb) =>
      var children := if found.Some? then BlocksOf(t, Under(hb.id)) else [];
      var link := JournalLink(journal, h.created);
      if link != "" then
        match FindBlockByText(Some(children), link)
        case Some(g) => (AddEntry(t1, g.id, BlocksOf(t, Under(g.id)), h), Done)
        case None => (AddEntry(AppendChild(t1, hb.id, link), t1.nextId, [], h), Done)
      else (AddEntry(t1, hb.id, children, h), Done)
  }

  /** The source's `createHighlight`, on the store. */
  method CreateHighlight(s: Store, bookmark: Bookmark, h: Highlight) returns (o: Outcome)
    requires s.Valid()
    modifies s
    ensures s.Valid()
    ensures (s.State(), o) == AfterCreateHighlight(old(s.State()), s.readProp, s.journal, bookmark.hash, h)
  {
    var tree := s.State();
    var found := GetPageBlockByText(tree, s.readProp, ByHash(bookmark.hash), Heading);
    var highlightsBlock: Block;
    if found.Some? {
      highlightsBlock := found.value;
      var page := GetPage(tree, s.readProp, ByHash(bookmark.hash)).value;
      FoundIsOld(tree, Root(page), Heading);
    } else {
      var made := CreatePageBlock(s, ByHash(bookmark.hash), Heading);
      if made.Err? {
        return Failed(made.error);
      }
      highlightsBlock := made.value;
    }
    var highlightBlocks := if found.Some? then BlocksOf(tree, Under(highlightsBlock.id)) else [];
    var tagLinks := TagLinks(h.tags);
    var journalLink := JournalLink(s.journal, h.created);
    if journalLink != "" {
      var group := FindBlockByText(Some(highlightBlocks), journalLink);
      var dateBlock: Block;
      var dateBlocks: seq<Block>;
      if group.Some? {
        FoundIsOld(tree, Under(highlightsBlock.id), journalLink);
        dateBlock := group.value;
        dateBlocks := BlocksOf(tree, Under(dateBlock.id));
      } else {
        dateBlock := CreateChildBlock(s, highlightsBlock.id, journalLink);
        dateBlocks := [];
      }
      var present := FindBlockByText(Some(dateBlocks), Quoted(h.text)).Some?;
      if !present {
        var _ := CreateChildBlock(s, dateBlock.id, Quoted(h.text) + tagLinks);
      }
    } else {
      var present := FindBlockByText(Some(highlightBlocks), Quoted(h.text)).Some?;
      if !present {
        var _ := CreateChildBlock(s, highlightsBlock.id, Quoted(h.text) + tagLinks);
      }
    }
    o := Done;
  }

  /** The highlights block of the page with `hash` holds the highlight where
      `createHighlight` looks for it: a child (under the first child starting
      with `link`, when `link` is set) that starts with `quoted`. */
  predicate Recorded(t: Tree, rp: Reader, hash: string, link: string, quoted: string) {
    match GetPageBlockByText(t, rp, ByHash(hash), Heading)
    case None => false
    case Some(hb) =>
      var children := BlocksOf(t, Under(hb.id));
      if link != "" then
        match FindBlockByText(Some(children), link)
        case None => false
        case Some(g) => FindBlockByText(Some(BlocksOf(t, Under(g.id))), quoted).Some?
      else FindBlockByText(Some(children), quoted).Some?
  }

  predicate HighlightRecorded(t: Tree, rp: Reader, journal: Date -> string, hash: string, h: Highlight) {
    Recorded(t, rp, hash, JournalLink(journal, h.created), Quoted(h.text))
  }

  /** The call fails exactly when no page has the bookmark's hash or that page
      has no blocks; a failed call writes nothing. */
  lemma HighlightFails(t: Tree, rp: Reader, journal: Date -> string, hash: string, h: Highlight)
    ensures var r := AfterCreateHighlight(t, rp, journal, hash, h);
      var page := PageByHash(t, rp, hash);
      && (r.1.Failed? <==> page.None? || KidsOf(t, Root(page.value)) == [])
      && (r.1.Failed? ==> r.0 == t && r.1 == Failed("Error inserting new page block"))
  {
    CreatePageBlockFails(t, rp, ByHash(hash), Heading);
  }

  lemma AddEntryAdds(t: Tree, group: BlockId, children: seq<Block>, h: Highlight)
    requires WellFormed(t) && group < t.nextId
    ensures var u := AddEntry(t, group, children, h);
      && WellFormed(u) && OnlyAdds(t, u) && u.titles == t.titles
      && forall p :: 0 <= p < |t.titles| ==> Head(u, p) == Head(t, p)
  {
    if FindBlockByText(Some(children), Quoted(h.text)).Some? {
      OnlyAddsRefl(t);
    } else {
      AppendChildAdds(t, group, Entry(h));
    }
  }

  /** The call only adds blocks: nothing is removed or reordered, no
      existing block's content changes, and no page's title or properties
      block changes. */
  lemma HighlightOnlyAdds(t: Tree, rp: Reader, journal: Date -> string, hash: string, h: Highlight)
    requires WellFormed(t)
    ensures var u := AfterCreateHighlight(t, rp, journal, hash, h).0;
      && WellFormed(u) && OnlyAdds(t, u) && u.titles == t.titles
      && forall p :: 0 <= p < |t.titles| ==> Head(u, p) == Head(t, p)
  {
    var found := GetPageBlockByText(t, rp, ByHash(hash), Heading);
    var page := PageByHash(t, rp, hash);
    HighlightFails(t, rp, journal, hash, h);
    if page.None? || KidsOf(t, Root(page.value)) == [] {
      OnlyAddsRefl(t);
    } else if found.Some? {
      FoundOnlyAdds(t, rp, journal, hash, h);
    } else {
      CreatedOnlyAdds(t, rp, journal, hash, h);
    }
  }

  /** With the highlights block found, only the entry inserts write. */
  lemma FoundOnlyAdds(t: Tree, rp: Reader, journal: Date -> string, hash: string, h: Highlight)
    requires WellFormed(t)
    requires GetPageBlockByText(t, rp, ByHash(hash), Heading).Some?
    ensures var u := AfterCreateHighlight(t, rp, journal, hash, h).0;
      && WellFormed(u) && OnlyAdds(t, u) && u.titles == t.titles
      && forall p :: 0 <= p < |t.titles| ==> Head(u, p) == Head(t, p)
  {
    var hb := GetPageBlockByText(t, rp, ByHash(hash), Heading).value;
    var page := PageByHash(t, rp, hash);
    FoundIsOld(t, Root(page.value), Heading);
    var children := BlocksOf(t, Under(hb.id));
    var link := JournalLink(journal, h.created);
    var u := AfterCreateHighlight(t, rp, journal, hash, h).0;
    if link != "" {
      var g := FindBlockByText(Some(children), link);
      if g.Some? {
        FoundIsOld(t, Under(hb.id), link);
        assert u == AddEntry(t, g.value.id, BlocksOf(t, Under(g.value.id)), h);
        AddEntryAdds(t, g.value.id, BlocksOf(t, Under(g.value.id)), h);
      } else {
        var t2 := AppendChild(t, hb.id, link);
        assert u == AddEntry(t2, t.nextId, [], h);
        AppendChildAdds(t, hb.id, link);
        AddEntryAdds(t2, t.nextId, [], h);
        OnlyAddsTrans(t, t2, u);
      }
    } else {
      assert u == AddEntry(t, hb.id, children, h);
      AddEntryAdds(t, hb.id, children, h);
    }
  }

  /** With the highlights block just created, the entry goes under it, after
      the group block when the highlight is dated. */
  lemma CreatedOnlyAdds(t: Tree, rp: Reader, journal: Date -> string, hash: string, h: Highlight)
    requires WellFormed(t)
    requires var page := PageByHash(t, rp, hash); page.Some? && KidsOf(t, Root(page.value)) != []
    requires GetPageBlockByText(t, rp, ByHash(hash), Heading).None?
    ensures var u := AfterCreateHighlight(t, rp, journal, hash, h).0;
      && WellFormed(u) && OnlyAdds(t, u) && u.titles == t.titles
      && forall p :: 0 <= p < |t.titles| ==> Head(u, p) == Head(t, p)
  {
    var t1 := AfterCreatePageBlock(t, rp, ByHash(hash), Heading).0;
    var link := JournalLink(journal, h.created);
    CreatedShape(t, rp, journal, hash, h);
    CreatePageBlockInserts(t, rp, ByHash(hash), Heading);
    UnderNewAdds(t1, t.nextId, link, h);
    OnlyAddsTrans(t, t1, UnderNew(t1, t.nextId, link, h));
  }

  /** With the highlights block just created, the call files the entry
      under it and succeeds. */
  lemma CreatedShape(t: Tree, rp: Reader, journal: Date -> string, hash: string, h: Highlight)
    requires var page := PageByHash(t, rp, hash); page.Some? && KidsOf(t, Root(page.value)) != []
    requires GetPageBlockByText(t, rp, ByHash(hash), Heading).None?
    ensures var t1 := AfterCreatePageBlock(t, rp, ByHash(hash), Heading).0;
      AfterCreateHighlight(t, rp, journal, hash, h) == (UnderNew(t1, t.nextId, JournalLink(journal, h.created), h), Done)
  {
    CreatePageBlockResult(t, rp, ByHash(hash), Heading);
  }

  /** The entry inserts under a highlights block that has no children yet. */
  function UnderNew(t1: Tree, hb: BlockId, link: string, h: Highlight): Tree {
    if link != "" then AddEntry(AppendChild(t1, hb, link), t1.nextId, [], h)
    else AddEntry(t1, hb, [], h)
  }

  lemma UnderNewAdds(t1: Tree, hb: BlockId, link: string, h: Highlight)
    requires WellFormed(t1) && hb < t1.nextId
    ensures var u := UnderNew(t1, hb, link, h);
      && WellFormed(u) && OnlyAdds(t1, u) && u.titles == t1.titles
      && forall p :: 0 <= p < |t1.titles| ==> Head(u, p) == Head(t1, p)
  {
    if link != "" {
      var t2 := AppendChild(t1, hb, link);
      AppendChildAdds(t1, hb, link);
      AddEntryAdds(t2, t1.nextId, [], h);
      OnlyAddsTrans(t1, t2, UnderNew(t1, hb, link, h));
    } else {
      AddEntryAdds(t1, hb, [], h);
    }
  }

  /** A highlight already recorded is skipped: the call writes nothing. */
  lemma HighlightNoopWhenRecorded(t: Tree, rp: Reader, journal: Date -> string, hash: string, h: Highlight)
    requires HighlightRecorded(t, rp, journal, hash, h)
    ensures AfterCreateHighlight(t, rp, journal, hash, h) == (t, Done)
  {
  }

  /** Child inserts do not move the highlights block. */
  lemma AppendKeepsHeading(t: Tree, rp: Reader, parent: BlockId, c: string, hash: string)
    requires WellFormed(t) && parent < t.nextId
    ensures GetPageBlockByText(AppendChild(t, parent, c), rp, ByHash(hash), Heading)
         == GetPageBlockByText(t, rp, ByHash(hash), Heading)
  {
    AppendChildKeepsPages(t, rp, parent, c, ByHash(hash));
  }

  /** An undated entry appended under the highlights block is recorded. */
  lemma RecordedUndated(t: Tree, rp: Reader, hash: string, hb: Block, h: Highlight)
    requires WellFormed(t) && hb.id < t.nextId
    requires GetPageBlockByText(t, rp, ByHash(hash), Heading) == Some(hb)
    ensures Recorded(AppendChild(t, hb.id, Entry(h)), rp, hash, "", Quoted(h.text))
  {
    AppendKeepsHeading(t, rp, hb.id, Entry(h), hash);
    NewEntryFound(t, hb.id, h);
  }

  /** An entry appended under the date group found is recorded. */
  lemma RecordedInGroup(t: Tree, rp: Reader, hash: string, hb: Block, g: Block, link: string, h: Highlight)
    requires WellFormed(t) && g.id < t.nextId && link != ""
    requires GetPageBlockByText(t, rp, ByHash(hash), Heading) == Some(hb)
    requires FindBlockByText(Some(BlocksOf(t, Under(hb.id))), link) == Some(g)
    requires FindBlockByText(Some(BlocksOf(t, Under(g.id))), Quoted(h.text)).None?
    ensures Recorded(AppendChild(t, g.id, Entry(h)), rp, hash, link, Quoted(h.text))
  {
    var u := AppendChild(t, g.id, Entry(h));
    var nb := Block(t.nextId, Entry(h));
    AppendKeepsHeading(t, rp, g.id, Entry(h), hash);
    var cu := BlocksOf(u, Under(hb.id));
    assert FindBlockByText(Some(cu), link) == Some(g) by {
      BlocksOfAppend(t, g.id, Entry(h), Under(hb.id));
      if hb.id == g.id {
        FirstMatchAppend(BlocksOf(t, Under(hb.id)), nb, link);
      } else {
        assert cu == BlocksOf(t, Under(hb.id));
      }
    }
    NewEntryFound(t, g.id, h);
    assert FindBlockByText(Some(BlocksOf(u, Under(g.id))), Quoted(h.text)).Some?;
  }

  /** After the entry is appended under `group`, the group's children
      contain a block starting with the quoted text. */
  lemma NewEntryFound(t: Tree, group: BlockId, h: Highlight)
    requires WellFormed(t)
    ensures FindBlockByText(Some(BlocksOf(AppendChild(t, group, Entry(h)), Under(group))), Quoted(h.text)).Some?
  {
    var nb := Block(t.nextId, Entry(h));
    BlocksOfAppend(t, group, Entry(h), Under(group));
    FirstMatchAppend(BlocksOf(t, Under(group)), nb, Quoted(h.text));
    assert Quoted(h.text) <= nb.content;
  }

  /** A new date group with the entry under it is recorded. */
  lemma RecordedInNewGroup(t: Tree, rp: Reader, hash: string, hb: Block, link: string, h: Highlight)
    requires WellFormed(t) && hb.id < t.nextId && link != ""
    requires GetPageBlockByText(t, rp, ByHash(hash), Heading) == Some(hb)
    requires FindBlockByText(Some(BlocksOf(t, Under(hb.id))), link).None?
    ensures Recorded(AppendChild(AppendChild(t, hb.id, link), t.nextId, Entry(h)), rp, hash, link, Quoted(h.text))
  {
    var n := t.nextId;
    var t2 := AppendChild(t, hb.id, link);
    var u := AppendChild(t2, n, Entry(h));
    AppendChildAdds(t, hb.id, link);
    AppendKeepsHeading(t, rp, hb.id, link, hash);
    AppendKeepsHeading(t2, rp, n, Entry(h), hash);
    var g := Block(n, link);
    BlocksOfAppend(t, hb.id, link, Under(hb.id));
    FirstMatchAppend(BlocksOf(t, Under(hb.id)), g, link);
    assert FindBlockByText(Some(BlocksOf(t2, Under(hb.id))), link) == Some(g);
    BlocksOfAppend(t2, n, Entry(h), Under(hb.id));
    assert BlocksOf(u, Under(hb.id)) == BlocksOf(t2, Under(hb.id));
    NewEntryFound(t2, n, h);
  }

  /** A highlights block just created is the one later lookups find, and
      it has no children yet. */
  lemma CreatedHeadingFound(t: Tree, rp: Reader, hash: string)
    requires WellFormed(t)
    requires var page := PageByHash(t, rp, hash); page.Some? && KidsOf(t, Root(page.value)) != []
    requires GetPageBlockByText(t, rp, ByHash(hash), Heading).None?
    ensures var t1 := AfterCreatePageBlock(t, rp, ByHash(hash), Heading).0;
      && GetPageBlockByText(t1, rp, ByHash(hash), Heading) == Some(Block(t.nextId, Heading))
      && KidsOf(t1, Under(t.nextId)) == []
      && WellFormed(t1) && t.nextId < t1.nextId
  {
    var q := Root(PageByHash(t, rp, hash).value);
    assert GetPageBlocks(t, rp, ByHash(hash)) == Some(BlocksOf(t, q));
    assert FirstMatch(BlocksOf(t, q), Heading).None?;
    CreatePageBlockFinds(t, rp, ByHash(hash), Heading);
    var t1 := AfterCreatePageBlock(t, rp, ByHash(hash), Heading).0;
    assert WellFormed(t1) && t.nextId < t1.nextId && KidsOf(t1, Under(t.nextId)) == [] by {
      CreatePageBlockInserts(t, rp, ByHash(hash), Heading);
    }
  }

  /** A successful call leaves the highlight recorded. */
  lemma HighlightRecords(t: Tree, rp: Reader, journal: Date -> string, hash: string, h: Highlight)
    requires WellFormed(t)
    requires AfterCreateHighlight(t, rp, journal, hash, h).1.Done?
    ensures HighlightRecorded(AfterCreateHighlight(t, rp, journal, hash, h).0, rp, journal, hash, h)
  {
    var found := GetPageBlockByText(t, rp, ByHash(hash), Heading);
    if found.Some? {
      RecordsWhenFound(t, rp, journal, hash, h, found.value);
    } else {
      HighlightFails(t, rp, journal, hash, h);
      RecordsWhenCreated(t, rp, journal, hash, h);
    }
  }

  lemma RecordsWhenFound(t: Tree, rp: Reader, journal: Date -> string, hash: string, h: Highlight, hb: Block)
    requires WellFormed(t)
    requires GetPageBlockByText(t, rp, ByHash(hash), Heading) == Some(hb)
    ensures HighlightRecorded(AfterCreateHighlight(t, rp, journal, hash, h).0, rp, journal, hash, h)
  {
    var page := PageByHash(t, rp, hash);
    FoundIsOld(t, Root(page.value), Heading);
    var children := BlocksOf(t, Under(hb.id));
    var link := JournalLink(journal, h.created);
    var u := AfterCreateHighlight(t, rp, journal, hash, h).0;
    if link != "" {
      var g := FindBlockByText(Some(children), link);
      if g.Some? {
        assert u == AddEntry(t, g.value.id, BlocksOf(t, Under(g.value.id)), h);
        if FindBlockByText(Some(BlocksOf(t, Under(g.value.id))), Quoted(h.text)).None? {
          FoundIsOld(t, Under(hb.id), link);
          RecordedInGroup(t, rp, hash, hb, g.value, link, h);
        }
      } else {
        assert u == AddEntry(AppendChild(t, hb.id, link), t.nextId, [], h);
        RecordedInNewGroup(t, rp, hash, hb, link, h);
      }
    } else {
      assert u == AddEntry(t, hb.id, children, h);
      if FindBlockByText(Some(children), Quoted(h.text)).None? {
        RecordedUndated(t, rp, hash, hb, h);
      }
    }
  }

  lemma RecordsWhenCreated(t: Tree, rp: Reader, journal: Date -> string, hash: string, h: Highlight)
    requires WellFormed(t)
    requires var page := PageByHash(t, rp, hash); page.Some? && KidsOf(t, Root(page.value)) != []
    requires GetPageBlockByText(t, rp, ByHash(hash), Heading).None?
    ensures HighlightRecorded(AfterCreateHighlight(t, rp, journal, hash, h).0, rp, journal, hash, h)
  {
    CreatedHeadingFound(t, rp, hash);
    CreatedShape(t, rp, journal, hash, h);
    var t1 := AfterCreatePageBlock(t, rp, ByHash(hash), Heading).0;
    UnderNewRecorded(t1, rp, hash, Block(t.nextId, Heading), JournalLink(journal, h.created), h);
  }

  /** The entry filed under a highlights block with no children yet is
      recorded. */
  lemma UnderNewRecorded(t1: Tree, rp: Reader, hash: string, hb: Block, link: string, h: Highlight)
    requires WellFormed(t1) && hb.id < t1.nextId
    requires GetPageBlockByText(t1, rp, ByHash(hash), Heading) == Some(hb)
    requires KidsOf(t1, Under(hb.id)) == []
    ensures Recorded(UnderNew(t1, hb.id, link, h), rp, hash, link, Quoted(h.text))
  {
    assert BlocksOf(t1, Under(hb.id)) == [];
    if link != "" {
      assert UnderNew(t1, hb.id, link, h) == AppendChild(AppendChild(t1, hb.id, link), t1.nextId, Entry(h));
      RecordedInNewGroup(t1, rp, hash, hb, link, h);
    } else {
      assert UnderNew(t1, hb.id, link, h) == AppendChild(t1, hb.id, Entry(h));
      RecordedUndated(t1, rp, hash, hb, h);
    }
  }

  /** Running the call again after a success changes nothing. */
  lemma HighlightIdempotent(t: Tree, rp: Reader, journal: Date -> string, hash: string, h: Highlight)
    requires WellFormed(t)
    requires AfterCreateHighlight(t, rp, journal, hash, h).1.Done?
    ensures var u := AfterCreateHighlight(t, rp, journal, hash, h).0;
      AfterCreateHighlight(u, rp, journal, hash, h) == (u, Done)
  {
    HighlightRecords(t, rp, journal, hash, h);
    HighlightNoopWhenRecorded(AfterCreateHighlight(t, rp, journal, hash, h).0, rp, journal, hash, h);
  }

  /** When the highlights block already exists, the page's root blocks read
      the same after the call: every insert goes under that block. */
  lemma FoundKeepsRoots(t: Tree, rp: Reader, journal: Date -> string, hash: string, h: Highlight)
    requires WellFormed(t)
    requires GetPageBlockByText(t, rp, ByHash(hash), Heading).Some?
    ensures var u := AfterCreateHighlight(t, rp, journal, hash, h).0;
      GetPageBlocks(u, rp, ByHash(hash)) == GetPageBlocks(t, rp, ByHash(hash))
  {
    var hb := GetPageBlockByText(t, rp, ByHash(hash), Heading).value;
    var page := PageByHash(t, rp, hash);
    FoundIsOld(t, Root(page.value), Heading);
    var children := BlocksOf(t, Under(hb.id));
    var link := JournalLink(journal, h.created);
    var u := AfterCreateHighlight(t, rp, journal, hash, h).0;
    var e := Entry(h);
    if link != "" {
      var g := FindBlockByText(Some(children), link);
      if g.Some? {
        FoundIsOld(t, Under(hb.id), link);
        assert u == AddEntry(t, g.value.id, BlocksOf(t, Under(g.value.id)), h);
        AppendChildKeepsPages(t, rp, g.value.id, e, ByHash(hash));
      } else {
        var t2 := AppendChild(t, hb.id, link);
        assert u == AddEntry(t2, t.nextId, [], h);
        AppendChildKeepsPages(t, rp, hb.id, link, ByHash(hash));
        AppendChildAdds(t, hb.id, link);
        AppendChildKeepsPages(t2, rp, t.nextId, e, ByHash(hash));
      }
    } else {
      assert u == AddEntry(t, hb.id, children, h);
      AppendChildKeepsPages(t, rp, hb.id, e, ByHash(hash));
    }
  }

  lemma {:induction false} CountNone(bs: seq<Block>, text: string)
    requires FirstMatch(bs, text).None?
    ensures forall i :: 0 <= i < |bs| ==> !(text <= bs[i].content)
  {
  }

  /** At most one highlights block is made: the number of the page's root
      blocks that start with `## highlights` stays the same when there is
      one, and becomes one when there is none and a block can be made. */
  lemma HighlightsBlockCount(t: Tree, rp: Reader, journal: Date -> string, hash: string, h: Highlight)
    requires WellFormed(t)
    requires PageByHash(t, rp, hash).Some?
    ensures var page := PageByHash(t, rp, hash).value;
      var u := AfterCreateHighlight(t, rp, journal, hash, h).0;
      var before := CountMatches(BlocksOf(t, Root(page)), Heading);
      CountMatches(BlocksOf(u, Root(page)), Heading)
        == if before == 0 && KidsOf(t, Root(page)) != [] then 1 else before
  {
    var page := PageByHash(t, rp, hash).value;
    var u := AfterCreateHighlight(t, rp, journal, hash, h).0;
    HighlightFails(t, rp, journal, hash, h);
    HighlightOnlyAdds(t, rp, journal, hash, h);
    PageByHashStable(t, u, rp, hash);
    if GetPageBlockByText(t, rp, ByHash(hash), Heading).Some? {
      FoundKeepsRoots(t, rp, journal, hash, h);
    } else if KidsOf(t, Root(page)) != [] {
      var t1 := AfterCreatePageBlock(t, rp, ByHash(hash), Heading).0;
      CreatePageBlockInserts(t, rp, ByHash(hash), Heading);
      PageByHashStable(t, t1, rp, hash);
      RootsAfterCreate(t, rp, journal, hash, h);
      assert BlocksOf(u, Root(page)) == BlocksOf(t1, Root(page));
      CountAfterCreate(t, rp, hash, page, Heading);
    }
  }

  /** The root blocks after `createPageBlock` hold exactly one block that
      starts with `text` when they held none. */
  lemma CountAfterCreate(t: Tree, rp: Reader, hash: string, page: nat, text: string)
    requires WellFormed(t) && PageByHash(t, rp, hash) == Some(page) && KidsOf(t, Root(page)) != []
    requires text != [] && GetPageBlockByText(t, rp, ByHash(hash), text).None?
    ensures CountMatches(BlocksOf(AfterCreatePageBlock(t, rp, ByHash(hash), text).0, Root(page)), text) == 1
  {
    var prev := BlocksOf(t, Root(page));
    var all := [prev[0], Block(t.nextId + 1, ""), Block(t.nextId, text)] + prev[1..];
    assert CountMatches(all, text) == 1 by {
      NoHeadingYet(t, rp, hash, page, text);
      CountInserted(prev, all, t.nextId, text);
    }
    HeadingInserted(t, rp, hash, page, text);
  }

  /** `createPageBlock` on the page found by hash puts the new block after
      the first root block, with an empty block after it. */
  lemma HeadingInserted(t: Tree, rp: Reader, hash: string, page: nat, text: string)
    requires WellFormed(t) && PageByHash(t, rp, hash) == Some(page) && KidsOf(t, Root(page)) != []
    ensures var prev := BlocksOf(t, Root(page));
      BlocksOf(AfterCreatePageBlock(t, rp, ByHash(hash), text).0, Root(page))
        == [prev[0], Block(t.nextId + 1, ""), Block(t.nextId, text)] + prev[1..]
  {
    CreatePageBlockRoots(t, rp, ByHash(hash), text);
  }

  /** No root block of a page where no block starts with `text` does. */
  lemma NoHeadingYet(t: Tree, rp: Reader, hash: string, page: nat, text: string)
    requires PageByHash(t, rp, hash) == Some(page)
    requires GetPageBlockByText(t, rp, ByHash(hash), text).None?
    ensures CountMatches(BlocksOf(t, Root(page)), text) == 0
  {
    assert GetPageBlocks(t, rp, ByHash(hash)) == Some(BlocksOf(t, Root(page)));
  }

  /** Putting an empty block and then one block that matches after the
      first of blocks none of which match makes the count one. */
  lemma CountInserted(bs: seq<Block>, all: seq<Block>, id: BlockId, text: string)
    requires bs != [] && text != [] && CountMatches(bs, text) == 0
    requires all == [bs[0], Block(id + 1, ""), Block(id, text)] + bs[1..]
    ensures CountMatches(all, text) == 1
  {
    var tail := bs[1..];
    assert CountMatches(tail, text) == 0 by {
      assert CountMatches(bs, text) == (if text <= bs[0].content then 1 else 0) + CountMatches(tail, text);
    }
    var rest := all[2..];
    assert rest[0] == Block(id, text) && rest[1..] == tail;
    assert CountMatches(rest, text) == 1;
    assert !(text <= "");
    assert CountMatches(all[1..], text) == CountMatches(rest, text) by { assert all[1..][1..] == rest; }
  }

  /** After a highlights block is created, the entry inserts go under it
      and leave the page's root blocks alone. */
  lemma RootsAfterCreate(t: Tree, rp: Reader, journal: Date -> string, hash: string, h: Highlight)
    requires WellFormed(t)
    requires var page := PageByHash(t, rp, hash); page.Some? && KidsOf(t, Root(page.value)) != []
    requires GetPageBlockByText(t, rp, ByHash(hash), Heading).None?
    ensures var t1 := AfterCreatePageBlock(t, rp, ByHash(hash), Heading).0;
      var u := AfterCreateHighlight(t, rp, journal, hash, h).0;
      GetPageBlocks(u, rp, ByHash(hash)) == GetPageBlocks(t1, rp, ByHash(hash))
  {
    CreatedHeadingFound(t, rp, hash);
    CreatedShape(t, rp, journal, hash, h);
    var t1 := AfterCreatePageBlock(t, rp, ByHash(hash), Heading).0;
    UnderNewKeepsPages(t1, rp, t.nextId, JournalLink(journal, h.created), h, ByHash(hash));
  }

  /** The entry inserts under a new highlights block keep every page lookup. */
  lemma UnderNewKeepsPages(t1: Tree, rp: Reader, hb: BlockId, link: string, h: Highlight, p: PageOrHash)
    requires WellFormed(t1) && hb < t1.nextId
    ensures GetPageBlocks(UnderNew(t1, hb, link, h), rp, p) == GetPageBlocks(t1, rp, p)
  {
    var e := Entry(h);
    if link != "" {
      var t2 := AppendChild(t1, hb, link);
      AppendChildKeepsPages(t1, rp, hb, link, p);
      AppendChildAdds(t1, hb, link);
      if UnderNew(t1, hb, link, h) != t2 {
        AppendChildKeepsPages(t2, rp, t1.nextId, e, p);
      }
    } else if UnderNew(t1, hb, link, h) != t1 {
      AppendChildKeepsPages(t1, rp, hb, e, p);
    }
  }

  /** A child insert keeps a block that was found among `q`'s children the
      one found: the new block goes last. */
  lemma FoundStaysFound(t: Tree, parent: BlockId, c: string, q: Parent, text: string)
    requires WellFormed(t)
    requires FindBlockByText(Some(BlocksOf(t, q)), text).Some?
    ensures FindBlockByText(Some(BlocksOf(AppendChild(t, parent, c), q)), text)
         == FindBlockByText(Some(BlocksOf(t, q)), text)
  {
    var bs := BlocksOf(t, q);
    var nb := Block(t.nextId, c);
    var cs := BlocksOf(AppendChild(t, parent, c), q);
    BlocksOfAppend(t, parent, c, q);
    if q == Under(parent) {
      assert cs == bs + [nb];
      FirstMatchAppend(bs, nb, text);
      var i := FirstMatch(bs, text).value;
      assert FirstMatch(cs, text) == Some(i);
      assert cs[i] == bs[i];
    } else {
      assert cs == bs;
    }
  }

  /** A child insert keeps every recorded highlight recorded. */
  lemma AppendKeepsRecorded(t: Tree, rp: Reader, hash: string, link: string, quoted: string, parent: BlockId, c: string)
    requires WellFormed(t) && parent < t.nextId
    requires Recorded(t, rp, hash, link, quoted)
    ensures Recorded(AppendChild(t, parent, c), rp, hash, link, quoted)
  {
    var u := AppendChild(t, parent, c);
    AppendKeepsHeading(t, rp, parent, c, hash);
    var hb := GetPageBlockByText(t, rp, ByHash(hash), Heading).value;
    var cs := BlocksOf(t, Under(hb.id));
    if link != "" {
      FoundStaysFound(t, parent, c, Under(hb.id), link);
      var g := FindBlockByText(Some(cs), link).value;
      FoundStaysFound(t, parent, c, Under(g.id), quoted);
    } else {
      FoundStaysFound(t, parent, c, Under(hb.id), quoted);
    }
  }

  /** Filing one highlight keeps every highlight already recorded on the
      same page recorded, so the highlights of a bookmark, filed in order,
      are all recorded at the end. */
  lemma HighlightKeepsRecorded(t: Tree, rp: Reader, journal: Date -> string, hash: string, h: Highlight, link: string, quoted: string)
    requires WellFormed(t)
    requires Recorded(t, rp, hash, link, quoted)
    ensures Recorded(AfterCreateHighlight(t, rp, journal, hash, h).0, rp, hash, link, quoted)
  {
    var hb := GetPageBlockByText(t, rp, ByHash(hash), Heading).value;
    var page := PageByHash(t, rp, hash);
    FoundIsOld(t, Root(page.value), Heading);
    var children := BlocksOf(t, Under(hb.id));
    var hl := JournalLink(journal, h.created);
    var u := AfterCreateHighlight(t, rp, journal, hash, h).0;
    if hl != "" {
      var g := FindBlockByText(Some(children), hl);
      if g.Some? {
        FoundIsOld(t, Under(hb.id), hl);
        assert u == AddEntry(t, g.value.id, BlocksOf(t, Under(g.value.id)), h);
        AddEntryKeepsRecorded(t, rp, hash, link, quoted, g.value.id, BlocksOf(t, Under(g.value.id)), h);
      } else {
        var t2 := AppendChild(t, hb.id, hl);
        assert u == AddEntry(t2, t.nextId, [], h);
        AppendKeepsRecorded(t, rp, hash, link, quoted, hb.id, hl);
        AppendChildAdds(t, hb.id, hl);
        AddEntryKeepsRecorded(t2, rp, hash, link, quoted, t.nextId, [], h);
      }
    } else {
      assert u == AddEntry(t, hb.id, children, h);
      AddEntryKeepsRecorded(t, rp, hash, link, quoted, hb.id, children, h);
    }
  }

  /** Adding an entry under a block of the store keeps every recorded
      highlight recorded. */
  lemma AddEntryKeepsRecorded(t: Tree, rp: Reader, hash: string, link: string, quoted: string, group: BlockId, children: seq<Block>, h: Highlight)
    requires WellFormed(t) && group < t.nextId
    requires Recorded(t, rp, hash, link, quoted)
    ensures Recorded(AddEntry(t, group, children, h), rp, hash, link, quoted)
  {
    if AddEntry(t, group, children, h) != t {
      AppendKeepsRecorded(t, rp, hash, link, quoted, group, Entry(h));
    }
  }
}
