/** The document store the importer writes into (the Logseq editor and
    database API it calls through `logseq.Editor` and `logseq.DB`), as an
    in-memory outline: pages in creation order, each with an ordered list of
    root blocks; blocks with text content and an ordered list of children.

    The host's behaviour is not part of the importer; what the model assumes
    about it is stated on each operation below. The pure `Tree` functions
    describe each operation's effect and the `Store` class performs it. */
module Host {
  import opened Types
  import opened Seqs

  type BlockId = nat

  /** The owner of a list of blocks: a page (its root blocks) or a block. */
  datatype Parent = Root(page: nat) | Under(block: BlockId)

  /** A block as a read returns it: its id and its content at that moment. */
  datatype Block = Block(id: BlockId, content: string)

  /** The whole store. Page `p` is the one titled `titles[p]`; ids from
      `nextId` on have never been handed out. */
  datatype Tree = Tree(
    titles: seq<string>,
    content: map<BlockId, string>,
    kids: map<Parent, seq<BlockId>>,
    nextId: nat)

  predicate Fits(t: Tree, q: Parent) {
    match q
    case Root(p) => p < |t.titles|
    case Under(b) => b < t.nextId
  }

  /** Every id in use is below `nextId`, so a new block is fresh: it has no
      content, no children and no place in any list yet. Every listed block
      has content. */
  predicate WellFormed(t: Tree) {
    && (forall b :: b in t.content ==> b < t.nextId)
    && (forall q :: q in t.kids ==> Fits(t, q))
    && (forall q, i :: q in t.kids && 0 <= i < |t.kids[q]| ==> t.kids[q][i] < t.nextId && t.kids[q][i] in t.content)
  }

  function ContentOf(t: Tree, b: BlockId): string {
    if b in t.content then t.content[b] else ""
  }

  function KidsOf(t: Tree, q: Parent): seq<BlockId> {
    if q in t.kids then t.kids[q] else []
  }

  /** The blocks with ids `ids`, read in `t`. */
  function Blocks(t: Tree, ids: seq<BlockId>): (r: seq<Block>)
    ensures |r| == |ids|
    ensures forall i :: 0 <= i < |ids| ==> r[i] == Block(ids[i], ContentOf(t, ids[i]))
  {
    if ids == [] then [] else [Block(ids[0], ContentOf(t, ids[0]))] + Blocks(t, ids[1..])
  }

  /** The children of `q` (the root blocks of a page), in order. */
  function BlocksOf(t: Tree, q: Parent): seq<Block> {
    Blocks(t, KidsOf(t, q))
  }

  /** In a well-formed store every listed block has an id below `nextId`. */
  lemma ListedIsOld(t: Tree, q: Parent, i: nat)
    requires WellFormed(t) && i < |KidsOf(t, q)|
    ensures KidsOf(t, q)[i] < t.nextId
    ensures BlocksOf(t, q)[i].id < t.nextId
  {
  }

  /** Content of the first root block of page `p`, which holds the page's
      properties. */
  function Head(t: Tree, p: nat): Option<string> {
    var roots := KidsOf(t, Root(p));
    if roots == [] then None else Some(ContentOf(t, roots[0]))
  }

  /** A page property, as the host parses it from the properties block with
      `readProp`. */
  function PageProp(t: Tree, readProp: (string, string) -> Value, p: nat, key: string): Value {
    match Head(t, p)
    case None => Undef
    case Some(c) => readProp(c, key)
  }

  function FirstWithHash(t: Tree, readProp: (string, string) -> Value, h: string, from: nat): (r: Option<nat>)
    ensures r.Some? ==> from <= r.value < |t.titles| && PageProp(t, readProp, r.value, "hash") == Str(h)
    ensures forall p :: from <= p < |t.titles| && (r.None? || p < r.value) ==> PageProp(t, readProp, p, "hash") != Str(h)
    decreases |t.titles| - from
  {
    if from >= |t.titles| then None
    else if PageProp(t, readProp, from, "hash") == Str(h) then Some(from)
    else FirstWithHash(t, readProp, h, from + 1)
  }

  /** `(page-property hash "h")`, first result: the earliest page whose
      `hash` property is `h`. */
  function PageByHash(t: Tree, readProp: (string, string) -> Value, h: string): (r: Option<nat>)
    ensures r.Some? ==> r.value < |t.titles| && PageProp(t, readProp, r.value, "hash") == Str(h)
    ensures r.None? ==> forall p :: 0 <= p < |t.titles| ==> PageProp(t, readProp, p, "hash") != Str(h)
    ensures r.Some? ==> forall p :: 0 <= p < r.value ==> PageProp(t, readProp, p, "hash") != Str(h)
  {
    FirstWithHash(t, readProp, h, 0)
  }

  lemma {:induction false} FirstWithHashStable(t: Tree, u: Tree, readProp: (string, string) -> Value, h: string, from: nat)
    requires |t.titles| == |u.titles|
    requires forall p :: 0 <= p < |t.titles| ==> Head(t, p) == Head(u, p)
    ensures FirstWithHash(t, readProp, h, from) == FirstWithHash(u, readProp, h, from)
    decreases |t.titles| - from
  {
    if from < |t.titles| {
      assert PageProp(t, readProp, from, "hash") == PageProp(u, readProp, from, "hash");
      FirstWithHashStable(t, u, readProp, h, from + 1);
    }
  }

  /** The hash lookup only sees the number of pages and their properties
      blocks. */
  lemma PageByHashStable(t: Tree, u: Tree, readProp: (string, string) -> Value, h: string)
    requires |t.titles| == |u.titles|
    requires forall p :: 0 <= p < |t.titles| ==> Head(t, p) == Head(u, p)
    ensures PageByHash(t, readProp, h) == PageByHash(u, readProp, h)
  {
    FirstWithHashStable(t, u, readProp, h, 0);
  }

  /** The first page that reads back the hash is the one found. */
  lemma PageByHashAt(t: Tree, readProp: (string, string) -> Value, h: string, p: nat)
    requires p < |t.titles| && PageProp(t, readProp, p, "hash") == Str(h)
    requires forall q :: 0 <= q < p ==> PageProp(t, readProp, q, "hash") != Str(h)
    ensures PageByHash(t, readProp, h) == Some(p)
  {
  }

  /** Store growth: no page or block is removed, pages keep their titles and
      every list of blocks keeps its members in their order. */
  predicate Grows(t: Tree, u: Tree) {
    && t.titles <= u.titles
    && t.nextId <= u.nextId
    && (forall q :: q in t.kids ==> q in u.kids && SubSeq(t.kids[q], u.kids[q]))
  }

  /** ... and no existing block's content changes either. */
  predicate OnlyAdds(t: Tree, u: Tree) {
    && Grows(t, u)
    && (forall b :: b in t.content ==> b in u.content && u.content[b] == t.content[b])
  }

  lemma GrowsTrans(t: Tree, u: Tree, v: Tree)
    requires Grows(t, u) && Grows(u, v)
    ensures Grows(t, v)
  {
    forall q | q in t.kids
      ensures q in v.kids && SubSeq(t.kids[q], v.kids[q])
    {
      SubSeqTrans<BlockId>(t.kids[q], u.kids[q], v.kids[q]);
    }
  }

  lemma OnlyAddsTrans(t: Tree, u: Tree, v: Tree)
    requires OnlyAdds(t, u) && OnlyAdds(u, v)
    ensures OnlyAdds(t, v)
  {
    GrowsTrans(t, u, v);
  }

  lemma OnlyAddsRefl(t: Tree)
    ensures OnlyAdds(t, t)
  {
    forall q | q in t.kids
      ensures SubSeq(t.kids[q], t.kids[q])
    {
      SubSeqRefl<BlockId>(t.kids[q]);
    }
  }

  /** `logseq.Editor.createPage(title)` on a title that is free: a new last
      page with one empty first block. */
  function AddPage(t: Tree, title: string): (r: Tree)
    ensures |r.titles| == |t.titles| + 1 && r.titles[|t.titles|] == title
    ensures KidsOf(r, Root(|t.titles|)) == [t.nextId] && ContentOf(r, t.nextId) == ""
  {
    Tree(t.titles + [title], t.content[t.nextId := ""], t.kids[Root(|t.titles|) := [t.nextId]], t.nextId + 1)
  }

  /** A new page only adds, and the older pages keep their properties
      blocks. */
  lemma AddPageAdds(t: Tree, title: string)
    requires WellFormed(t)
    ensures var r := AddPage(t, title);
      && WellFormed(r) && OnlyAdds(t, r)
      && forall p :: 0 <= p < |t.titles| ==> Head(r, p) == Head(t, p)
  {
    var r := AddPage(t, title);
    assert Root(|t.titles|) !in t.kids;
    OnlyAddsRefl(t);
    forall p | 0 <= p < |t.titles|
      ensures Head(r, p) == Head(t, p)
    {
      if KidsOf(t, Root(p)) != [] {
        assert Root(p) in t.kids;
        assert KidsOf(t, Root(p))[0] < t.nextId;
      }
    }
  }

  /** The host's `createPage`: no page for an empty title or a title in use,
      otherwise the new page's index. */
  function HostCreatePage(t: Tree, title: string): (Tree, Option<nat>) {
    if title == "" || title in t.titles then (t, None)
    else (AddPage(t, title), Some(|t.titles|))
  }

  /** `insertBlock(src, c)` as a sibling: block `c` goes right after the
      block at position `at` of `q`'s list. */
  function InsertAfter(t: Tree, q: Parent, at: nat, c: string): (r: Tree)
    requires at < |KidsOf(t, q)|
    ensures KidsOf(r, q) == KidsOf(t, q)[..at + 1] + [t.nextId] + KidsOf(t, q)[at + 1..]
    ensures forall q' :: q' != q ==> KidsOf(r, q') == KidsOf(t, q')
    ensures ContentOf(r, t.nextId) == c
    ensures forall x :: x != t.nextId ==> ContentOf(r, x) == ContentOf(t, x)
    ensures r.titles == t.titles && r.nextId == t.nextId + 1
  {
    var ks := KidsOf(t, q);
    Tree(t.titles, t.content[t.nextId := c], t.kids[q := ks[..at + 1] + [t.nextId] + ks[at + 1..]], t.nextId + 1)
  }

  /** A sibling insert puts the new block right after block `at` of `q`
      and leaves every listed block's content alone. */
  lemma InsertAfterBlocks(t: Tree, q: Parent, at: nat, c: string)
    requires WellFormed(t) && at < |KidsOf(t, q)|
    ensures var bs := BlocksOf(t, q);
      BlocksOf(InsertAfter(t, q, at, c), q) == bs[..at + 1] + [Block(t.nextId, c)] + bs[at + 1..]
  {
    var r := InsertAfter(t, q, at, c);
    var ks := KidsOf(t, q);
    var bs := BlocksOf(t, q);
    var want := bs[..at + 1] + [Block(t.nextId, c)] + bs[at + 1..];
    var got := BlocksOf(r, q);
    assert |got| == |want|;
    forall i | 0 <= i < |got| ensures got[i] == want[i] {
      if i < at + 1 {
        ListedIsOld(t, q, i);
        assert got[i] == Block(ks[i], ContentOf(r, ks[i]));
      } else if i > at + 1 {
        ListedIsOld(t, q, i - 1);
        assert got[i] == Block(ks[i - 1], ContentOf(r, ks[i - 1]));
      }
    }
  }

  /** A sibling insert only adds, and keeps every page's properties block. */
  lemma InsertAfterAdds(t: Tree, q: Parent, at: nat, c: string)
    requires WellFormed(t) && at < |KidsOf(t, q)|
    ensures var r := InsertAfter(t, q, at, c);
      && WellFormed(r) && OnlyAdds(t, r)
      && forall p :: 0 <= p < |t.titles| ==> Head(r, p) == Head(t, p)
  {
    var ks := KidsOf(t, q);
    var r := InsertAfter(t, q, at, c);
    assert q in t.kids;
    forall q' | q' in t.kids
      ensures q' in r.kids && SubSeq(t.kids[q'], r.kids[q'])
    {
      if q' == q {
        SubSeqInsert<BlockId>(ks, at + 1, t.nextId);
        assert r.kids[q] == ks[..at + 1] + [t.nextId] + ks[at + 1..];
      } else {
        assert r.kids[q'] == t.kids[q'];
        SubSeqRefl<BlockId>(t.kids[q']);
      }
    }
    assert ks[0] < t.nextId;
    FreshAdds(t, r);
  }

  /** `insertBlock(parent, c, { sibling: false })`: block `c` becomes the
      last child of `parent`. */
  function AppendChild(t: Tree, parent: BlockId, c: string): (r: Tree)
    ensures KidsOf(r, Under(parent)) == KidsOf(t, Under(parent)) + [t.nextId]
    ensures forall q' :: q' != Under(parent) ==> KidsOf(r, q') == KidsOf(t, q')
    ensures ContentOf(r, t.nextId) == c
    ensures forall x :: x != t.nextId ==> ContentOf(r, x) == ContentOf(t, x)
    ensures r.titles == t.titles && r.nextId == t.nextId + 1
  {
    var ks := KidsOf(t, Under(parent));
    Tree(t.titles, t.content[t.nextId := c], t.kids[Under(parent) := ks + [t.nextId]], t.nextId + 1)
  }

  /** A child insert only adds, and keeps every page's properties block. */
  lemma AppendChildAdds(t: Tree, parent: BlockId, c: string)
    requires WellFormed(t) && parent < t.nextId
    ensures var r := AppendChild(t, parent, c);
      && WellFormed(r) && OnlyAdds(t, r)
      && forall p :: 0 <= p < |t.titles| ==> Head(r, p) == Head(t, p)
  {
    var r := AppendChild(t, parent, c);
    forall q' | q' in t.kids
      ensures q' in r.kids && SubSeq(t.kids[q'], r.kids[q'])
    {
      if q' == Under(parent) {
        SubSeqAppend<BlockId>(KidsOf(t, Under(parent)), t.nextId);
      } else {
        assert r.kids[q'] == t.kids[q'];
        SubSeqRefl<BlockId>(t.kids[q']);
      }
    }
    FreshAdds(t, r);
  }

  /** The part of the two insert lemmas they share. */
  lemma FreshAdds(t: Tree, r: Tree)
    requires WellFormed(t)
    requires r.titles == t.titles && r.nextId == t.nextId + 1
    requires forall b :: b in r.content <==> b in t.content || b == t.nextId
    requires forall b :: b in t.content ==> r.content[b] == t.content[b]
    requires forall q :: q in t.kids ==> q in r.kids && SubSeq(t.kids[q], r.kids[q])
    requires forall q :: q in r.kids ==> q in t.kids || q.Under?
    requires forall q :: q in r.kids && q.Under? ==> q.block < r.nextId
    requires forall q, i :: q in r.kids && 0 <= i < |r.kids[q]| ==> r.kids[q][i] < r.nextId && r.kids[q][i] in r.content
    requires forall p :: 0 <= p < |t.titles| && KidsOf(t, Root(p)) != [] ==>
      KidsOf(r, Root(p)) != [] && KidsOf(r, Root(p))[0] == KidsOf(t, Root(p))[0]
    requires forall p :: 0 <= p < |t.titles| && KidsOf(t, Root(p)) == [] ==> KidsOf(r, Root(p)) == []
    ensures WellFormed(r) && OnlyAdds(t, r)
    ensures forall p :: 0 <= p < |t.titles| ==> Head(r, p) == Head(t, p)
  {
    forall p | 0 <= p < |t.titles|
      ensures Head(r, p) == Head(t, p)
    {
      if KidsOf(t, Root(p)) != [] {
        assert Root(p) in t.kids;
        assert KidsOf(t, Root(p))[0] < t.nextId;
      }
    }
  }

  /** `updateBlock(b, c)`: the content of `b` becomes `c`. */
  function SetContent(t: Tree, b: BlockId, c: string): (r: Tree)
    ensures ContentOf(r, b) == c
    ensures forall x :: x != b ==> ContentOf(r, x) == ContentOf(t, x)
    ensures forall q :: KidsOf(r, q) == KidsOf(t, q)
    ensures r.titles == t.titles && r.nextId == t.nextId
  {
    t.(content := t.content[b := c])
  }

  /** A content update keeps the structure. */
  lemma SetContentKeeps(t: Tree, b: BlockId, c: string)
    requires WellFormed(t) && b < t.nextId
    ensures WellFormed(SetContent(t, b, c)) && Grows(t, SetContent(t, b, c))
  {
    forall q | q in t.kids
      ensures SubSeq(t.kids[q], t.kids[q])
    {
      SubSeqRefl<BlockId>(t.kids[q]);
    }
  }

  /** What reads see after a child insert: the parent's children gain the
      new block at the end, every other list reads as before. */
  lemma BlocksOfAppend(t: Tree, parent: BlockId, c: string, q: Parent)
    requires WellFormed(t)
    ensures BlocksOf(AppendChild(t, parent, c), q) ==
      BlocksOf(t, q) + (if q == Under(parent) then [Block(t.nextId, c)] else [])
  {
    var u := AppendChild(t, parent, c);
    var ks := KidsOf(t, q);
    forall i | 0 <= i < |ks|
      ensures ContentOf(u, ks[i]) == ContentOf(t, ks[i])
    {
      if q in t.kids {
        assert ks[i] < t.nextId;
      }
    }
  }

  /** A sibling insert into one list leaves every other list reading as
      before. */
  lemma BlocksOfInsertElsewhere(t: Tree, q0: Parent, at: nat, c: string, q: Parent)
    requires WellFormed(t) && at < |KidsOf(t, q0)| && q != q0
    ensures BlocksOf(InsertAfter(t, q0, at, c), q) == BlocksOf(t, q)
  {
    var u := InsertAfter(t, q0, at, c);
    var ks := KidsOf(t, q);
    forall i | 0 <= i < |ks|
      ensures ContentOf(u, ks[i]) == ContentOf(t, ks[i])
    {
      if q in t.kids {
        assert ks[i] < t.nextId;
      }
    }
  }

  /** The store itself; `readProp` is the host's property parser (what it
      reports as `block.properties[key]` for a block's content) and
      `journal` its journal-page link for a date in the user's date
      format. */
  class Store {
    var titles: seq<string>
    var content: map<BlockId, string>
    var kids: map<Parent, seq<BlockId>>
    var nextId: nat
    const readProp: (string, string) -> Value
    const journal: Date -> string

    function State(): Tree
      reads this
    {
      Tree(titles, content, kids, nextId)
    }

    predicate Valid()
      reads this
    {
      WellFormed(State())
    }

    constructor(readProp: (string, string) -> Value, journal: Date -> string)
      ensures Valid() && State() == Tree([], map[], map[], 0)
      ensures this.readProp == readProp && this.journal == journal
    {
      titles := [];
      content := map[];
      kids := map[];
      nextId := 0;
      this.readProp := readProp;
      this.journal := journal;
    }

    method CreatePage(title: string) returns (page: Option<nat>)
      requires Valid()
      modifies this
      ensures Valid()
      ensures (State(), page) == HostCreatePage(old(State()), title)
    {
      if title == "" || title in titles {
        return None;
      }
      AddPageAdds(State(), title);
      page := Some(|titles|);
      content := content[nextId := ""];
      kids := kids[Root(|titles|) := [nextId]];
      titles := titles + [title];
      nextId := nextId + 1;
    }

    method InsertSibling(q: Parent, at: nat, c: string) returns (b: Block)
      requires Valid() && at < |KidsOf(State(), q)|
      modifies this
      ensures Valid()
      ensures State() == InsertAfter(old(State()), q, at, c)
      ensures b == Block(old(nextId), c)
    {
      var ks := KidsOf(State(), q);
      InsertAfterAdds(State(), q, at, c);
      content := content[nextId := c];
      kids := kids[q := ks[..at + 1] + [nextId] + ks[at + 1..]];
      b := Block(nextId, c);
      nextId := nextId + 1;
    }

    method InsertChild(parent: BlockId, c: string) returns (b: Block)
      requires Valid() && parent < nextId
      modifies this
      ensures Valid()
      ensures State() == AppendChild(old(State()), parent, c)
      ensures b == Block(old(nextId), c)
    {
      var ks := KidsOf(State(), Under(parent));
      AppendChildAdds(State(), parent, c);
      content := content[nextId := c];
      kids := kids[Under(parent) := ks + [nextId]];
      b := Block(nextId, c);
      nextId := nextId + 1;
    }

    method UpdateBlock(b: BlockId, c: string)
      requires Valid() && b < nextId
      modifies this
      ensures Valid()
      ensures State() == SetContent(old(State()), b, c)
    {
      SetContentKeeps(State(), b, c);
      content := content[b := c];
    }
  }
}
