/** The Hacker News source (src/sources/hn.ts): one bookmark per favorite
    item, in item order, and the `lastId` it remembers for `setLastSync`.
    The items the client returned are an input. */
module HackerNews {
  import opened Types
  import opened Seqs
  import opened Hash

  /** An item as the Hacker News API returns it. */
  datatype Item = Item(id: string, byUser: string, time: int, title: string, url: Option<string>)

  const ItemPrefix: string := "https://news.ycombinator.com/item?id="

  /** The item's discussion page. */
  function HnUrl(id: string): string {
    ItemPrefix + id
  }

  /** Different items have different discussion pages. */
  lemma HnUrlInjective(a: string, b: string)
    requires HnUrl(a) == HnUrl(b)
    ensures a == b
  {
    assert a == HnUrl(a)[|ItemPrefix|..];
    assert b == HnUrl(b)[|ItemPrefix|..];
  }

  /** `item.url || hnUrl` */
  function ItemUrl(item: Item): string {
    if Present(item.url) then item.url.value else HnUrl(item.id)
  }

  /** The bookmark of one item; `posted` is the journal link of
      `new Date(item.time * 1000)`. */
  function ToBookmark(journal: Date -> string): Item -> Bookmark {
    (item: Item) =>
      Bookmark(
        HashOf(ItemUrl(item)),
        item.title,
        Some(ItemUrl(item)),
        Some(["article", "hackernews"]),
        [("author", Str("[[" + item.byUser + " (hackernews)]]")),
         ("hn-url", Str(HnUrl(item.id))),
         ("posted", Str(journal(Epoch(item.time * 1000))))],
        None,
        None)
  }

  /** The fields of an item's bookmark: the URL, or the discussion page
      when the item has none; the hash of that URL; the discussion page
      always as `hn-url`; fixed tags; the author linked with the source. */
  lemma BookmarkFields(journal: Date -> string, item: Item)
    ensures var b := ToBookmark(journal)(item);
      && b.url == Some(if Present(item.url) then item.url.value else HnUrl(item.id))
      && b.hash == HashOf(b.url.value)
      && b.title == item.title
      && b.tags == Some(["article", "hackernews"])
      && Get(b.properties, "hn-url") == Str(HnUrl(item.id))
      && Get(b.properties, "author") == Str("[[" + item.byUser + " (hackernews)]]")
      && Get(b.properties, "posted") == Str(journal(Epoch(item.time * 1000)))
      && b.highlights.None? && b.created.None?
  {
    var b := ToBookmark(journal)(item);
    assert b.url == Some(ItemUrl(item));
    var p := b.properties;
    assert p[1..] == [p[1], p[2]] && p[1..][1..] == [p[2]] && p[1..][1..][1..] == [];
    assert Get(p[1..][1..], "posted") == p[2].1;
  }

  /** Items without a URL of their own get distinct URLs, so distinct
      bookmark pages by URL. */
  lemma UrlsDistinct(a: Item, b: Item)
    requires !Present(a.url) && !Present(b.url) && a.id != b.id
    ensures ItemUrl(a) != ItemUrl(b)
  {
    if ItemUrl(a) == ItemUrl(b) {
      HnUrlInjective(a.id, b.id);
    }
  }

  /** The source object: it remembers the first item's id. */
  class HN {
    var lastId: Option<string>

    constructor()
      ensures lastId == None
    {
      lastId := None;
    }

    /** `getBookmarks()` once the client's items are known. */
    method GetBookmarks(items: seq<Item>, journal: Date -> string) returns (bs: seq<Bookmark>)
      modifies this
      ensures lastId == if items == [] then None else Some(items[0].id)
      ensures bs == Map(items, ToBookmark(journal))
    {
      lastId := if items == [] then None else Some(items[0].id);
      bs := Map(items, ToBookmark(journal));
    }

    /** `setLastSync`: the entry written, only when `lastId` is set. */
    function LastSync(): (r: Option<(string, string)>)
      reads this
      ensures r.Some? <==> Present(lastId)
      ensures r.Some? ==> r.value == ("hnLastSync", lastId.value)
    {
      if Present(lastId) then Some(("hnLastSync", lastId.value)) else None
    }
  }
}
