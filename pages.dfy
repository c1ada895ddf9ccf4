/** The store helpers of src/utils.ts:16-80: looking pages up by hash,
    reading their block trees, rewriting the properties block, creating pages
    and inserting blocks. Each helper is a function from the store before the
    call to the store after it and the helper's result; the methods perform
    the same steps on a `Store`. */
module Pages {
  import opened Types
  import opened Titles
  import opened PropertyBlock
  import opened Host

  type Reader = (string, string) -> Value

  /** `PageOrHash`: a page already at hand, or a hash to look a page up by. */
  datatype PageOrHash = ByPage(page: nat) | ByHash(hash: string)

  /** `getPage`: a page is returned as it is, a string is looked up as the
      value of the `hash` page property. */
  function GetPage(t: Tree, rp: Reader, p: PageOrHash): Option<nat> {
    match p
    case ByPage(i) => Some(i)
    case ByHash(h) => PageByHash(t, rp, h)
  }

  /** `getPageBlocks`: the root blocks of the page, none when there is no
      such page. */
  function GetPageBlocks(t: Tree, rp: Reader, p: PageOrHash): Option<seq<Block>> {
    match GetPage(t, rp, p)
    case None => None
    case Some(i) => if i < |t.titles| then Some(BlocksOf(t, Root(i))) else None
  }

  /** `getPagePropertiesBlock`: the first root block. */
  function GetPagePropertiesBlock(t: Tree, rp: Reader, p: PageOrHash): Option<Block> {
    match GetPageBlocks(t, rp, p)
    case Some(bs) => if bs == [] then None else Some(bs[0])
    case None => None
  }

  /** Position of the first block whose content starts with `text`. */
  function FirstMatch(bs: seq<Block>, text: string): (r: Option<nat>)
    ensures r.Some? ==> r.value < |bs| && text <= bs[r.value].content
    ensures forall j :: 0 <= j < |bs| && (r.None? || j < r.value) ==> !(text <= bs[j].content)
  {
    if bs == [] then None
    else if text <= bs[0].content then Some(0)
    else
      match FirstMatch(bs[1..], text)
      case None => None
      case Some(i) => Some(i + 1)
  }

  /** `findBlockByText`: `blocks?.find((b) => b.content.startsWith(text))`. */
  function FindBlockByText(blocks: Option<seq<Block>>, text: string): Option<Block> {
    match blocks
    case None => None
    case Some(bs) =>
      match FirstMatch(bs, text)
      case None => None
      case Some(i) => Some(bs[i])
  }

  /** The block found is the first block that starts with `text`; there is
      none exactly when `blocks` is absent or no block starts with `text`. */
  lemma FindBlockByTextFirst(blocks: Option<seq<Block>>, text: string)
    ensures var r := FindBlockByText(blocks, text);
      && (r.None? <==> blocks.None? || forall j :: 0 <= j < |blocks.value| ==> !(text <= blocks.value[j].content))
      && (r.Some? ==> exists i :: 0 <= i < |blocks.value| && r.value == blocks.value[i] && text <= r.value.content
                        && forall j :: 0 <= j < i ==> !(text <= blocks.value[j].content))
  {
    if blocks.Some? {
      var m := FirstMatch(blocks.value, text);
      if m.Some? {
        assert blocks.value[m.value] == FindBlockByText(blocks, text).value;
      }
    }
  }

  /** A block appended at the end leaves an earlier match in place, and is
      the match when there was none before and it starts with `text`. */
  lemma {:induction false} FirstMatchAppend(bs: seq<Block>, b: Block, text: string)
    ensures FirstMatch(bs + [b], text) ==
      if FirstMatch(bs, text).Some? then FirstMatch(bs, text)
      else if text <= b.content then Some(|bs|)
      else None
  {
    if bs != [] {
      assert (bs + [b])[1..] == bs[1..] + [b];
      FirstMatchAppend(bs[1..], b, text);
    }
  }

  /** The first match is determined by its position: a matching block with
      no match before it. */
  lemma FirstMatchAt(bs: seq<Block>, text: string, i: nat)
    requires i < |bs| && text <= bs[i].content
    requires forall j :: 0 <= j < i ==> !(text <= bs[j].content)
    ensures FirstMatch(bs, text) == Some(i)
  {
  }

  /** In a well-formed store a block found among `q`'s children has an id
      below `nextId`. */
  lemma FoundIsOld(t: Tree, q: Parent, text: string)
    requires WellFormed(t)
    ensures var r := FindBlockByText(Some(BlocksOf(t, q)), text);
      r.Some? ==> r.value.id < t.nextId && r.value.id in KidsOf(t, q)
  {
    var m := FirstMatch(BlocksOf(t, q), text);
    if m.Some? {
      ListedIsOld(t, q, m.value);
    }
  }

  /** How many blocks start with `text`. */
  function CountMatches(bs: seq<Block>, text: string): (n: nat)
    ensures n == 0 <==> FirstMatch(bs, text).None?
    ensures n <= |bs|
  {
    if bs == [] then 0
    else (if text <= bs[0].content then 1 else 0) + CountMatches(bs[1..], text)
  }

  /** A child insert keeps every page lookup: the same page is found for a
      hash and its root blocks read the same. */
  lemma AppendChildKeepsPages(t: Tree, rp: Reader, parent: BlockId, c: string, p: PageOrHash)
    requires WellFormed(t) && parent < t.nextId
    ensures GetPage(AppendChild(t, parent, c), rp, p) == GetPage(t, rp, p)
    ensures GetPageBlocks(AppendChild(t, parent, c), rp, p) == GetPageBlocks(t, rp, p)
  {
    var u := AppendChild(t, parent, c);
    AppendChildAdds(t, parent, c);
    if p.ByHash? {
      PageByHashStable(t, u, rp, p.hash);
    }
    var page := GetPage(t, rp, p);
    assert GetPage(u, rp, p) == page;
    if page.Some? {
      BlocksOfAppend(t, parent, c, Root(page.value));
      assert BlocksOf(u, Root(page.value)) == BlocksOf(t, Root(page.value));
    }
  }

  /** `getPageBlockByText` */
  function GetPageBlockByText(t: Tree, rp: Reader, p: PageOrHash, text: string): Option<Block> {
    FindBlockByText(GetPageBlocks(t, rp, p), text)
  }

  /** `upsertPageProperties`: the store after the call and its outcome. */
  function AfterUpsertPageProperties(t: Tree, rp: Reader, p: PageOrHash, props: Properties): (Tree, Outcome) {
    match GetPage(t, rp, p)
    case None => (t, Failed("Page does not exist"))
    case Some(page) =>
      match GetPagePropertiesBlock(t, rp, ByPage(page))
      case None => (t, Failed("Page properties do not exist"))
      case Some(b) => (SetContent(t, b.id, UpsertContent(b.content, rp(b.content, "tags"), props)), Done)
  }

  /** The upsert fails, and writes nothing, exactly when the page is unknown
      or has no blocks; a hash nobody has is reported as a missing page. */
  lemma UpsertPagePropertiesFails(t: Tree, rp: Reader, p: PageOrHash, props: Properties)
    ensures var r := AfterUpsertPageProperties(t, rp, p, props);
      var page := GetPage(t, rp, p);
      && (r.1.Failed? <==> page.None? || page.value >= |t.titles| || KidsOf(t, Root(page.value)) == [])
      && (page.None? ==> r.1 == Failed("Page does not exist"))
      && (r.1.Failed? ==> r.0 == t)
  {
  }

  /** An upsert whose rewrite gives back the block's own content leaves the
      store as it is. */
  lemma UpsertWritesBack(t: Tree, rp: Reader, page: nat, props: Properties)
    requires WellFormed(t) && page < |t.titles| && KidsOf(t, Root(page)) != []
    requires var c := ContentOf(t, KidsOf(t, Root(page))[0]);
      UpsertContent(c, rp(c, "tags"), props) == c
    ensures AfterUpsertPageProperties(t, rp, ByPage(page), props) == (t, Done)
  {
    var x := KidsOf(t, Root(page))[0];
    var bs := BlocksOf(t, Root(page));
    assert GetPageBlocks(t, rp, ByPage(page)) == Some(bs);
    assert bs[0] == Block(x, ContentOf(t, x));
    assert x in t.content by {
      assert Root(page) in t.kids;
    }
    assert t.content[x := t.content[x]] == t.content;
  }

  /** Otherwise its one write replaces the properties block's content with
      the rewritten content and changes no other block, no list of blocks and
      no title. */
  lemma UpsertPagePropertiesWrites(t: Tree, rp: Reader, page: nat, props: Properties)
    requires WellFormed(t) && page < |t.titles| && KidsOf(t, Root(page)) != []
    ensures var r := AfterUpsertPageProperties(t, rp, ByPage(page), props);
      var b := KidsOf(t, Root(page))[0];
      && r.1.Done?
      && Head(r.0, page) == Some(UpsertContent(ContentOf(t, b), rp(ContentOf(t, b), "tags"), props))
      && (forall x :: x != b ==> ContentOf(r.0, x) == ContentOf(t, x))
      && (forall q :: KidsOf(r.0, q) == KidsOf(t, q))
      && r.0.titles == t.titles && r.0.nextId == t.nextId && WellFormed(r.0) && Grows(t, r.0)
  {
    var b := KidsOf(t, Root(page))[0];
    ListedIsOld(t, Root(page), 0);
    var c := ContentOf(t, b);
    assert GetPagePropertiesBlock(t, rp, ByPage(page)) == Some(Block(b, c));
    SetContentKeeps(t, b, UpsertContent(c, rp(c, "tags"), props));
  }

  method UpsertPageProperties(s: Store, p: PageOrHash, props: Properties) returns (o: Outcome)
    requires s.Valid()
    modifies s
    ensures s.Valid()
    ensures (s.State(), o) == AfterUpsertPageProperties(old(s.State()), s.readProp, p, props)
  {
    var page := GetPage(s.State(), s.readProp, p);
    if page.None? {
      return Failed("Page does not exist");
    }
    var block := GetPagePropertiesBlock(s.State(), s.readProp, ByPage(page.value));
    if block.None? {
      return Failed("Page properties do not exist");
    }
    ListedIsOld(s.State(), Root(page.value), 0);
    var b := block.value;
    var content := UpsertBlockProperties(b.content, s.readProp(b.content, "tags"), props);
    s.UpdateBlock(b.id, content);
    o := Done;
  }

  /** `createPageBlock`: `content` goes right after the first root block,
      and then an empty block goes right after the first root block too;
      the result is the block holding `content`. */
  function AfterCreatePageBlock(t: Tree, rp: Reader, p: PageOrHash, content: string): (Tree, Result<Block>) {
    match GetPageBlocks(t, rp, p)
    case None => (t, Err("Error inserting new page block"))
    case Some(bs) =>
      if bs == [] then (t, Err("Error inserting new page block"))
      else
        var page := GetPage(t, rp, p).value;
        var t1 := InsertAfter(t, Root(page), 0, content);
        (InsertAfter(t1, Root(page), 0, ""), Ok(Block(t.nextId, content)))
  }

  /** The insert fails, and writes nothing, exactly when the page is unknown
      or has no blocks. */
  lemma CreatePageBlockFails(t: Tree, rp: Reader, p: PageOrHash, content: string)
    ensures var r := AfterCreatePageBlock(t, rp, p, content);
      var page := GetPage(t, rp, p);
      && (r.1.Err? <==> page.None? || page.value >= |t.titles| || KidsOf(t, Root(page.value)) == [])
      && (r.1.Err? ==> r.0 == t && r.1.error == "Error inserting new page block")
  {
  }

  /** Otherwise the block returned is the new block, with the next id. */
  lemma CreatePageBlockResult(t: Tree, rp: Reader, p: PageOrHash, content: string)
    requires var page := GetPage(t, rp, p);
      page.Some? && page.value < |t.titles| && KidsOf(t, Root(page.value)) != []
    ensures AfterCreatePageBlock(t, rp, p, content).1 == Ok(Block(t.nextId, content))
  {
    assert GetPageBlocks(t, rp, p) == Some(BlocksOf(t, Root(GetPage(t, rp, p).value)));
  }

  /** Otherwise the page's root blocks become the first block, an empty
      block, the new block, then the rest; nothing is removed, no existing
      content changes and no page's properties block moves. */
  lemma CreatePageBlockInserts(t: Tree, rp: Reader, p: PageOrHash, content: string)
    requires WellFormed(t)
    requires var page := GetPage(t, rp, p);
      page.Some? && page.value < |t.titles| && KidsOf(t, Root(page.value)) != []
    ensures var r := AfterCreatePageBlock(t, rp, p, content);
      var page := GetPage(t, rp, p).value;
      var ks := KidsOf(t, Root(page));
      && r.1 == Ok(Block(t.nextId, content))
      && KidsOf(r.0, Root(page)) == [ks[0], t.nextId + 1, t.nextId] + ks[1..]
      && ContentOf(r.0, t.nextId) == content && ContentOf(r.0, t.nextId + 1) == ""
      && KidsOf(r.0, Under(t.nextId)) == []
      && (forall q :: q != Root(page) ==> KidsOf(r.0, q) == KidsOf(t, q))
      && (forall i :: 0 <= i < |t.titles| ==> Head(r.0, i) == Head(t, i))
      && WellFormed(r.0) && OnlyAdds(t, r.0) && r.0.titles == t.titles && r.0.nextId == t.nextId + 2
  {
    var q := Root(GetPage(t, rp, p).value);
    assert GetPageBlocks(t, rp, p) == Some(BlocksOf(t, q));
    assert AfterCreatePageBlock(t, rp, p, content)
      == (InsertAfter(InsertAfter(t, q, 0, content), q, 0, ""), Ok(Block(t.nextId, content)));
    InsertTwice(t, q, content);
  }

  /** The two sibling inserts of `createPageBlock` on the store. */
  lemma InsertTwice(t: Tree, q: Parent, content: string)
    requires WellFormed(t) && KidsOf(t, q) != []
    ensures var u := InsertAfter(InsertAfter(t, q, 0, content), q, 0, "");
      var ks := KidsOf(t, q);
      && KidsOf(u, q) == [ks[0], t.nextId + 1, t.nextId] + ks[1..]
      && ContentOf(u, t.nextId) == content && ContentOf(u, t.nextId + 1) == ""
      && KidsOf(u, Under(t.nextId)) == []
      && (forall q' :: q' != q ==> KidsOf(u, q') == KidsOf(t, q'))
      && (forall i :: 0 <= i < |t.titles| ==> Head(u, i) == Head(t, i))
      && WellFormed(u) && OnlyAdds(t, u) && u.titles == t.titles && u.nextId == t.nextId + 2
  {
    var ks := KidsOf(t, q);
    var t1 := InsertAfter(t, q, 0, content);
    var u := InsertAfter(t1, q, 0, "");
    InsertAfterAdds(t, q, 0, content);
    InsertAfterAdds(t1, q, 0, "");
    OnlyAddsTrans(t, t1, u);
    assert KidsOf(t1, q) == [ks[0], t.nextId] + ks[1..];
    assert Under(t.nextId) !in t.kids;
  }

  /** The page is still found, and its root blocks are read from the
      new store. */
  lemma CreatePageBlockLookup(t: Tree, rp: Reader, p: PageOrHash, content: string)
    requires WellFormed(t)
    requires var page := GetPage(t, rp, p);
      page.Some? && page.value < |t.titles| && KidsOf(t, Root(page.value)) != []
    ensures var u := AfterCreatePageBlock(t, rp, p, content).0;
      var page := GetPage(t, rp, p).value;
      && GetPage(u, rp, p) == Some(page)
      && GetPageBlocks(u, rp, p) == Some(BlocksOf(u, Root(page)))
  {
    var u := AfterCreatePageBlock(t, rp, p, content).0;
    assert u.titles == t.titles && forall i :: 0 <= i < |t.titles| ==> Head(u, i) == Head(t, i) by {
      CreatePageBlockInserts(t, rp, p, content);
    }
    if p.ByHash? {
      PageByHashStable(t, u, rp, p.hash);
    }
  }

  /** Read as blocks: the first root block, the empty block, the new
      block, then the other root blocks. */
  lemma CreatePageBlockRoots(t: Tree, rp: Reader, p: PageOrHash, content: string)
    requires WellFormed(t)
    requires var page := GetPage(t, rp, p);
      page.Some? && page.value < |t.titles| && KidsOf(t, Root(page.value)) != []
    ensures var q := Root(GetPage(t, rp, p).value);
      var bs := BlocksOf(t, q);
      BlocksOf(AfterCreatePageBlock(t, rp, p, content).0, q)
        == [bs[0], Block(t.nextId + 1, ""), Block(t.nextId, content)] + bs[1..]
  {
    var q := Root(GetPage(t, rp, p).value);
    assert GetPageBlocks(t, rp, p) == Some(BlocksOf(t, q));
    assert AfterCreatePageBlock(t, rp, p, content).0 == InsertAfter(InsertAfter(t, q, 0, content), q, 0, "");
    InsertTwiceBlocks(t, q, content);
  }

  /** When no root block starts with `content`, the block just created is
      the one a lookup by that text finds: the first block does not match,
      nor does the empty block after it. */
  lemma CreatePageBlockFinds(t: Tree, rp: Reader, p: PageOrHash, content: string)
    requires WellFormed(t) && content != ""
    requires var page := GetPage(t, rp, p);
      page.Some? && page.value < |t.titles| && KidsOf(t, Root(page.value)) != []
    requires FirstMatch(BlocksOf(t, Root(GetPage(t, rp, p).value)), content).None?
    ensures GetPageBlockByText(AfterCreatePageBlock(t, rp, p, content).0, rp, p, content) == Some(Block(t.nextId, content))
  {
    var u := AfterCreatePageBlock(t, rp, p, content).0;
    var q := Root(GetPage(t, rp, p).value);
    var prev := BlocksOf(t, q);
    var bs := [prev[0], Block(t.nextId + 1, ""), Block(t.nextId, content)] + prev[1..];
    assert GetPageBlocks(u, rp, p) == Some(bs) by {
      CreatePageBlockLookup(t, rp, p, content);
      CreatePageBlockRoots(t, rp, p, content);
    }
    NewBlockFirst(prev, t.nextId, content);
    assert bs[2] == Block(t.nextId, content);
  }

  /** After the first of the blocks, none of which starts with `content`, an
      empty block and then a block holding `content`: that block is the
      first match. */
  lemma NewBlockFirst(prev: seq<Block>, id: BlockId, content: string)
    requires prev != [] && content != "" && FirstMatch(prev, content).None?
    ensures FirstMatch([prev[0], Block(id + 1, ""), Block(id, content)] + prev[1..], content) == Some(2)
  {
    var bs := [prev[0], Block(id + 1, ""), Block(id, content)] + prev[1..];
    assert !(content <= bs[0].content);
    assert !(content <= bs[1].content);
    FirstMatchAt(bs, content, 2);
  }

  lemma InsertTwiceBlocks(t: Tree, q: Parent, content: string)
    requires WellFormed(t) && KidsOf(t, q) != []
    ensures var bs := BlocksOf(t, q);
      BlocksOf(InsertAfter(InsertAfter(t, q, 0, content), q, 0, ""), q)
        == [bs[0], Block(t.nextId + 1, ""), Block(t.nextId, content)] + bs[1..]
  {
    var bs := BlocksOf(t, q);
    var t1 := InsertAfter(t, q, 0, content);
    InsertAfterBlocks(t, q, 0, content);
    InsertAfterAdds(t, q, 0, content);
    var bs1 := BlocksOf(t1, q);
    assert bs1[..1] == [bs[0]] && bs1[1..] == [Block(t.nextId, content)] + bs[1..];
    InsertAfterBlocks(t1, q, 0, "");
  }

  method CreatePageBlock(s: Store, p: PageOrHash, content: string) returns (r: Result<Block>)
    requires s.Valid()
    modifies s
    ensures s.Valid()
    ensures (s.State(), r) == AfterCreatePageBlock(old(s.State()), s.readProp, p, content)
  {
    var blocks := GetPageBlocks(s.State(), s.readProp, p);
    if blocks.None? || blocks.value == [] {
      return Err("Error inserting new page block");
    }
    var page := GetPage(s.State(), s.readProp, p).value;
    var block := s.InsertSibling(Root(page), 0, content);
    var _ := s.InsertSibling(Root(page), 0, "");
    r := Ok(block);
  }

  /** `createChildBlock`: `content` becomes the last child of `parent`. */
  method CreateChildBlock(s: Store, parent: BlockId, content: string) returns (b: Block)
    requires s.Valid() && parent < s.nextId
    modifies s
    ensures s.Valid()
    ensures s.State() == AppendChild(old(s.State()), parent, content)
    ensures b == Block(old(s.nextId), content)
  {
    b := s.InsertChild(parent, content);
  }

  /** The title `createPage` asks the host for: the normalized title, or the
      normalized title with ` (hash)` when some page's `hash` property equals
      the normalized title. */
  function PageTitle(t: Tree, rp: Reader, hash: string, title: string): string {
    var plain := NormalizeTitle(title, 100, None);
    if GetPage(t, rp, ByHash(plain)).Some? then NormalizeTitle(title, 100, Some(hash)) else plain
  }

  /** `createPage`: the store after the call and the new page, or the
      error. */
  function AfterCreatePage(t: Tree, rp: Reader, hash: string, title: string, props: Properties): (Tree, Result<nat>) {
    var (t1, page) := HostCreatePage(t, PageTitle(t, rp, hash, title));
    if page.None? then (t1, Err("Error creating page: " + title))
    else
      var (t2, o) := AfterUpsertPageProperties(t1, rp, ByPage(page.value), Spread([("hash", Str(hash))], props));
      if o.Failed? then (t2, Err(o.error)) else (t2, Ok(page.value))
  }

  /** Page creation fails, and writes nothing, exactly when the host refuses
      the title. Otherwise there is one new last page, titled `PageTitle`,
      whose properties block is the empty block rewritten with
      `{hash, ...props}`. No older block's content changes and no older
      list of blocks gains or loses a block. */
  lemma CreatePageEffect(t: Tree, rp: Reader, hash: string, title: string, props: Properties)
    requires WellFormed(t)
    ensures var (u, r) := AfterCreatePage(t, rp, hash, title, props);
      var name := PageTitle(t, rp, hash, title);
      && (r.Err? <==> name == "" || name in t.titles)
      && (r.Err? ==> u == t && r.error == "Error creating page: " + title)
      && (r.Ok? ==>
            && r.value == |t.titles| && u.titles == t.titles + [name]
            && Head(u, r.value) == Some(UpsertContent("", rp("", "tags"), Spread([("hash", Str(hash))], props)))
            && (forall i :: 0 <= i < |t.titles| ==> Head(u, i) == Head(t, i))
            && (forall q :: q in t.kids ==> KidsOf(u, q) == KidsOf(t, q))
            && WellFormed(u) && OnlyAdds(t, u))
  {
    var name := PageTitle(t, rp, hash, title);
    if name != "" && name !in t.titles {
      NewPageWrites(t, rp, name, Spread([("hash", Str(hash))], props));
    }
  }

  /** The success case of `CreatePageEffect`: the new page's properties
      block is written and everything older is kept. */
  lemma NewPageWrites(t: Tree, rp: Reader, name: string, full: Properties)
    requires WellFormed(t)
    ensures var t1 := AddPage(t, name);
      var (u, o) := AfterUpsertPageProperties(t1, rp, ByPage(|t.titles|), full);
      && o.Done? && u.titles == t.titles + [name]
      && Head(u, |t.titles|) == Some(UpsertContent("", rp("", "tags"), full))
      && (forall i :: 0 <= i < |t.titles| ==> Head(u, i) == Head(t, i))
      && (forall q :: q in t.kids ==> KidsOf(u, q) == KidsOf(t, q))
      && WellFormed(u) && OnlyAdds(t, u)
  {
    var t1 := AddPage(t, name);
    AddPageAdds(t, name);
    UpsertPagePropertiesWrites(t1, rp, |t.titles|, full);
    var u := AfterUpsertPageProperties(t1, rp, ByPage(|t.titles|), full).0;
    GrowsTrans(t, t1, u);
    forall q | q in t.kids
      ensures KidsOf(u, q) == KidsOf(t, q)
    {
      assert q != Root(|t.titles|);
    }
    assert u == SetContent(t1, t.nextId, UpsertContent("", rp("", "tags"), full));
    WriteKeepsOlder(t, t1, t.nextId, UpsertContent("", rp("", "tags"), full));
    forall i | 0 <= i < |t.titles|
      ensures Head(u, i) == Head(t, i)
    {
      if KidsOf(t, Root(i)) != [] {
        assert Root(i) in t.kids;
        assert KidsOf(t, Root(i))[0] < t.nextId;
      }
    }
  }

  /** Writing a block that `t` does not have keeps what `t` had. */
  lemma WriteKeepsOlder(t: Tree, t1: Tree, b: BlockId, c: string)
    requires WellFormed(t) && WellFormed(t1) && OnlyAdds(t, t1)
    requires t.nextId <= b < t1.nextId
    ensures OnlyAdds(t, SetContent(t1, b, c))
  {
    SetContentKeeps(t1, b, c);
    GrowsTrans(t, t1, SetContent(t1, b, c));
  }

  method CreatePage(s: Store, hash: string, title: string, props: Properties) returns (r: Result<nat>)
    requires s.Valid()
    modifies s
    ensures s.Valid()
    ensures (s.State(), r) == AfterCreatePage(old(s.State()), s.readProp, hash, title, props)
  {
    var pageTitle := NormalizeTitle(title, 100, None);
    var existing := GetPage(s.State(), s.readProp, ByHash(pageTitle));
    if existing.Some? {
      pageTitle := NormalizeTitle(title, 100, Some(hash));
    }
    var page := s.CreatePage(pageTitle);
    if page.None? {
      return Err("Error creating page: " + title);
    }
    var o := UpsertPageProperties(s, ByPage(page.value), Spread([("hash", Str(hash))], props));
    if o.Failed? {
      return Err(o.error);
    }
    r := Ok(page.value);
  }
}
