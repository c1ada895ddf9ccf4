/** The Pocket source (src/sources/pocket.ts): the resolved items with a
    title become bookmarks, in item order. The items the client returned
    are an input. */
module Pocket {
  import opened Types
  import opened Seqs
  import opened Text
  import opened Hash

  /** An item as the Pocket API returns it. */
  datatype Item = Item(resolvedId: string, resolvedTitle: Option<string>, resolvedUrl: Option<string>, timeAdded: string)

  /** `i.resolved_id && i.resolved_title` */
  predicate Kept(i: Item) {
    i.resolvedId != "" && Present(i.resolvedTitle)
  }

  /** `new Date(parseInt(time_added) * 1000)`; `NaN` gives an invalid date. */
  function AddedDate(timeAdded: string): Date {
    match ParseInt(timeAdded)
    case Some(n) => Epoch(n * 1000)
    case None => Invalid
  }

  /** The bookmark of one kept item. */
  function ToBookmark(item: Item): Bookmark {
    var url := if Present(item.resolvedUrl) then item.resolvedUrl.value else "";
    Bookmark(
      HashOf(url),
      if Present(item.resolvedTitle) then item.resolvedTitle.value else "",
      Some(url),
      Some(["article", "pocket"]),
      [],
      None,
      if item.timeAdded != "" then Some(AddedDate(item.timeAdded)) else None)
  }

  /** `getBookmarks()` once the client's items are known. */
  function Bookmarks(items: seq<Item>): seq<Bookmark> {
    Map(Filter(items, Kept), ToBookmark)
  }

  /** Exactly the kept items make bookmarks, and they keep their order. */
  lemma BookmarksOfKept(items: seq<Item>)
    ensures var r := Bookmarks(items);
      && (forall b :: b in r <==> exists i :: i in items && Kept(i) && b == ToBookmark(i))
      && SubSeq(Filter(items, Kept), items)
      && |r| == |Filter(items, Kept)|
  {
    var kept := Filter(items, Kept);
    var r := Bookmarks(items);
    FilterSubSeq(items, Kept);
    forall b ensures b in r <==> exists i :: i in items && Kept(i) && b == ToBookmark(i) {
      if b in r {
        var j :| 0 <= j < |r| && r[j] == b;
        assert kept[j] in kept;
      } else {
        forall i | i in items && Kept(i) ensures b != ToBookmark(i) {
          assert i in kept;
          var j :| 0 <= j < |kept| && kept[j] == i;
          assert r[j] == ToBookmark(i);
        }
      }
    }
  }

  /** The fields of a kept item's bookmark; every item without a resolved
      URL gets the empty URL and so the hash `"0"`. */
  lemma BookmarkFields(item: Item)
    requires Kept(item)
    ensures var b := ToBookmark(item);
      && b.url == Some(if Present(item.resolvedUrl) then item.resolvedUrl.value else "")
      && b.hash == HashOf(b.url.value)
      && (!Present(item.resolvedUrl) ==> b.hash == "0")
      && b.title == item.resolvedTitle.value
      && b.tags == Some(["article", "pocket"])
      && b.properties == [] && b.highlights.None?
      && (b.created.Some? <==> item.timeAdded != "")
  {
    HashEmpty();
  }

  /** A decimal `time_added` dates the bookmark at that second. */
  lemma AddedAtSecond(item: Item, seconds: nat)
    requires item.timeAdded == Decimal(seconds)
    ensures ToBookmark(item).created == Some(Epoch(seconds * 1000))
  {
    ParseIntDecimal(seconds, "");
    assert Decimal(seconds) + "" == Decimal(seconds);
  }

  /** `enabled`: both the consumer key and the access token are set. */
  function Enabled(consumerKey: Option<string>, accessToken: Option<string>): (r: bool)
    ensures r <==> consumerKey.Some? && consumerKey.value != "" && accessToken.Some? && accessToken.value != ""
  {
    Present(consumerKey) && Present(accessToken)
  }

  /** The three decimals of a millisecond count, trailing zeros dropped. */
  function Millis(ms: nat): string
    requires ms < 1000
  {
    var d := [DigitChar(ms / 100), DigitChar(ms / 10 % 10), DigitChar(ms % 10)];
    if ms % 100 == 0 then d[..1] else if ms % 10 == 0 then d[..2] else d
  }

  /** `String(Date.now() / 1000)`: whole seconds, then the fraction when
      there is one. */
  function SecondsText(now: nat): string {
    Decimal(now / 1000) + (if now % 1000 == 0 then "" else "." + Millis(now % 1000))
  }

  /** `setLastSync`: the settings entry written. */
  function LastSync(now: nat): (string, string) {
    ("pocketLastSync", SecondsText(now))
  }

  /** The stamp, read back with `parseInt`, is the whole second it was
      written in. */
  lemma LastSyncReadsBack(now: nat)
    ensures ParseInt(LastSync(now).1) == Some(now / 1000)
  {
    ParseIntDecimal(now / 1000, if now % 1000 == 0 then "" else "." + Millis(now % 1000));
  }
}
