# Logseq highlight importer: the merge engine, in Dafny

This project models the core of a Logseq plugin that imports bookmarks and
highlights from Readwise, Hacker News and Pocket into a Logseq graph, and
it proves properties of that model.

Each source adapter turns what its API client returned into normalized
`Bookmark` records, each carrying its `Highlight`s. The merge engine then
writes them into the graph, bookmark by bookmark:

1. It finds the bookmark's page by its `hash` page property.
2. It refreshes that page's tags, or creates the page with a properties
   block.
3. It files each highlight as a child block under a `## highlights` block,
   inside a date group when the highlight is dated.
4. It skips a highlight that is already there.

The string helpers form the lower layer: the identity hash, title
normalization, tag normalization and links, and the property-block
rewriter.

The modules follow the source files:

| module | file | content |
|---|---|---|
| `Types` | global.d.ts shapes | `Bookmark`, `Highlight`, property records as ordered `(key, value)` lists, truthiness, `Ok`/`Err` for thrown exceptions |
| `Seqs` | (helpers) | `Set` insertion order (`Dedupe`), stable `Array.prototype.sort` (`SortBy`), `filter` and `map` |
| `Text` | (helpers) | `join`, `includes`, `String(n)`, `parseInt` |
| `Hash` | `src/utils.ts` | `hashCode` |
| `Titles` | `src/utils.ts` | `normalizeTitle` |
| `Tags` | `src/utils.ts` | `normalizeTag`, `getTagLink`, the tag union |
| `PropertyBlock` | `src/utils.ts` | `upsertBlockProperties` |
| `Host` | (assumed host) | the Logseq store as a `Tree` value plus a `Store` class |
| `Pages` | `src/utils.ts` | the store helpers `getPage` … `createChildBlock`, `createPage` |
| `Source` | `src/sources/source.ts` | `createHighlight` |
| `Bookmarks` | `src/sources/source.ts` | `createBookmark`, `createBookmarks`, `sync` |
| `Readwise`, `HackerNews`, `Pocket` | `src/sources/*.ts` | the adapters |

Every store-changing operation has two parts:

- a function `After…(t, …)` that gives the store after the call and its
  outcome;
- a method on `Host.Store` that performs the same steps and is proved to
  end in exactly that state.

The lemmas are stated about the functions. A thrown exception is the
`Failed` outcome: it stops the loop it is raised in, and every loop around
it.

## Assumptions about the host

Logseq itself is not part of the importer. The model assumes the following
about it:

- `insertBlock(src, c)` as a sibling puts the new block directly after
  `src`.
- `insertBlock(parent, c, {sibling: false})` makes the new block the last
  child of `parent`.
- When the host refuses a title is not known, so the model chooses: the
  host's `createPage(title)` returns nothing exactly when the title is empty
  or already in use, and otherwise adds a page with one empty first block.
  Under this choice a title already in use makes `Editor.createPage` return
  nothing, so the importer's `createPage` throws and the whole sync stops.
- `updateBlock` replaces one block's content.
- `(page-property hash "h")` returns the earliest page whose parsed `hash`
  property is `h`.
- Every block listed under a page or a block has content (`Host.WellFormed`).
- How Logseq parses properties out of a block's text is left open: it is
  the store's `readProp` function and is never interpreted.
- The journal-page link for a date is left open too: it is the store's
  `journal` function.
- The adapters take their clients' results as inputs (arrays of items, and
  `getBookById` as a total function). `Date.now()` is an input, and the
  settings are a dictionary.

## Where the code and the design differ

The model follows the code.

- Key ranking in `upsertBlockProperties`: `findIndex` stops at
  `__other__`, so `hash` ranks 4 with every unlisted key, not last
  (`PropertyBlock.RankValues`).
- A key other than `tags` is appended as a new line even when the block
  already has a line for it (`PropertyBlock.UpsertWithoutTags`).
- `createPage`'s collision check calls `getPage(pageTitle)` with a string,
  which looks up a page whose `hash` property equals the normalized title
  (`Pages.PageTitle`).
- `normalizeTag`'s expression has no `g` flag, so only the first `#` or `|`
  is removed (`Tags.NormalizeTagRemovesFirst`).
- `upsertBlockProperties` writes the merged tags through
  `String.prototype.replace`, so a `$&`, `` $` ``, `$'` or `$$` in a stored
  tag is expanded rather than written as it is
  (`PropertyBlock.ReplaceExpandsMatch`).
- `sync` catches nothing. One failing bookmark stops the whole sync, and
  the last-sync stamp is then not written (`Bookmarks.SyncStops`).
- `createPageBlock` inserts the heading block, then an empty block, both
  right after the first root block. The page's root blocks therefore read
  first block, empty block, `## highlights`, then the rest. The highlights
  block is not placed last (`Pages.CreatePageBlockInserts`).

## Model

| member | source | states |
|---|---|---|
| Types.Put | src/utils.ts:92 | after `p[k] = v`, reading `k` gives `v` and every other key reads as before; an existing key keeps its place and a new key goes last |
| Types.SpreadGet | src/utils.ts:24 | in `{...base, ...over}` a key of `over` takes its value from `over`, and any other key keeps its value from `base` |
| Types.SpreadKeys | src/utils.ts:24 | the keys of a spread are those of the two records, with `base`'s keys in front in their order |
| Seqs.Dedupe | src/sources/readwise.ts:46-47 | `[...new Set(xs)]` holds each element of `xs` exactly once, and nothing else |
| Seqs.DedupePrefix | src/utils.ts:91 | the de-duplicated prefix stays a prefix when more elements are added |
| Seqs.DedupeAbsorbs | src/utils.ts:91 | adding only elements already present changes nothing |
| Seqs.SortBy | src/sources/readwise.ts:60 | the sorted sequence is a permutation of the input, in ascending key order |
| Seqs.SortByStable | src/utils.ts:96-100 | elements with equal keys keep their input order: the sort is stable |
| Seqs.Filter | src/sources/pocket.ts:29 | `filter` keeps exactly the elements that satisfy the predicate |
| Seqs.FilterSubSeq | src/sources/pocket.ts:29 | the kept elements are a subsequence of the input, so input order is kept |
| Text.Join | src/utils.ts:92 | `join` gives the empty string for no elements, the only element for one, and otherwise starts with the first element |
| Text.DecimalRoundTrip | src/sources/readwise.ts:25 | reading back the digits `String(n)` writes gives `n` |
| Text.ParseIntDecimal | src/sources/pocket.ts:38 | `parseInt` of `String(n)`, alone or followed by a fraction, is `n` |
| Hash.Int32 | src/utils.ts:149-150 | `ToInt32` gives the value congruent modulo 2^32 that lies in [-2^31, 2^31) |
| Hash.StepIsMulAdd | src/utils.ts:149-150 | `(hash << 5) - hash + chr`, then `\|= 0`, is `h * 31 + c` wrapped to signed 32 bits |
| Hash.FoldSnoc | src/utils.ts:147-151 | each code unit extends the hash by one wrapping `31 * h + c` step |
| Hash.HashCode | src/utils.ts:142-153 | the loop's result is the hex of the absolute value of the fold over the input's UTF-16 code units |
| Hash.HexRoundTrip | src/utils.ts:152 | `toString(16)` is invertible: reading the hex digits back gives the number |
| Hash.HashEmpty | src/utils.ts:146 | the empty input hashes to `"0"` |
| Hash.HashOfA | src/utils.ts:142-153 | `hashCode("a")` is `"61"` |
| Hash.HashShape | src/utils.ts:142-153 | every hash is 1 to 8 lowercase hex digits without a leading zero, and it reads back as the absolute value of the fold |
| Titles.StrippedOnePass | src/utils.ts:133-138 | the four global replacements are one per-character rule |
| Titles.StrippedSafe | src/utils.ts:133-138 | the stripped title holds no `/`, `:`, `.`, newline, or character above 0x7F |
| Titles.StrippedIdempotent | src/utils.ts:133-138 | stripping twice is the same as stripping once |
| Titles.NormalizeTitleShape | src/utils.ts:131-140 | the title part is the first `min(len, maxLen)` stripped characters; a truthy hash appends ` (hash)`, and an absent or empty one appends nothing |
| Tags.NormalizeTag | src/utils.ts:116-118 | the result is one character shorter exactly when the tag holds a `#` or a `\|` |
| Tags.NormalizeTagRemovesFirst | src/utils.ts:116-118 | only the first `#` or `\|` is deleted and every other character stays in place; a tag with neither is returned unchanged |
| Tags.GetTagLink | src/utils.ts:120-129 | the link always starts with `#`; a tag with a space becomes `#[[tag]]`; a tag already starting with `#` is kept; anything else gets `#` in front |
| Tags.MergeTagsUnion | src/utils.ts:87-91 | the union starts with the de-duplicated normalized old tags, holds no tag twice, holds exactly the old and new tags, and is never shorter than the old tag set |
| Tags.MergeTagsIdempotent | src/utils.ts:87-91 | sending only tags already present gives back the old tag set |
| Tags.MergeTagsIgnoresStrings | src/utils.ts:88-90 | old tags stored as a string count as none, and a string `tags` argument adds nothing |
| PropertyBlock.FindIndex | src/utils.ts:97-98 | `findIndex` gives the first position that is the key or `__other__`, or -1 when there is none |
| PropertyBlock.RankValues | src/utils.ts:83-99 | `tags` ranks 0, `author` 1, `url` 2, `hn-url` 3, and every other key 4, `hash` included |
| PropertyBlock.Without | src/utils.ts:85 | `const {tags, ...newProps}` drops `tags` and keeps every other key with its value |
| PropertyBlock.LineMatch | src/utils.ts:107 | a match of `key::[^\n]*\n` at the start runs from `key::` to the first newline, which belongs to the match |
| PropertyBlock.ReplaceLinesAbsent | src/utils.ts:106-108 | without an occurrence of `key::` the replacement changes nothing |
| PropertyBlock.SubstituteLiteral | src/utils.ts:108 | a replacement template without `$` is inserted as written |
| PropertyBlock.ReplaceSingleLine | src/utils.ts:107-108 | on a block that is one `key::` line, the template `pre$&post` writes the old line between `pre` and `post`: `$&` is the match |
| PropertyBlock.ReplaceExpandsMatch | src/utils.ts:108 | the tag text `#x, #a$&` written over `tags:: #x` gives `tags:: #x, #atags:: #x` followed by two newlines |
| PropertyBlock.UpsertBlockProperties | src/utils.ts:84-112 | the loop's content is the rewrite of the planned properties in sorted key order, with `replace`'s `$` patterns expanded in the `tags::` line |
| PropertyBlock.SortedPlanKeys | src/utils.ts:85-100 | the loop visits `tags` first when it is truthy, then the other keys in stable rank order |
| PropertyBlock.RewriteAppends | src/utils.ts:101-111 | for keys other than `tags` the loop only appends `\nkey:: value` lines, skipping falsy values |
| PropertyBlock.UpsertContentShape | src/utils.ts:84-112 | the new content is the tags step (a rewrite of the `tags::` lines, or one appended line), followed by one appended line per other truthy key, in rank order |
| PropertyBlock.UpsertKeepsPrefix | src/utils.ts:101-112 | unless existing `tags::` lines are rewritten, the old content is a prefix of the new |
| PropertyBlock.UpsertWithoutTags | src/utils.ts:106-110 | without truthy tags nothing is rewritten: every truthy key is appended, present or not |
| PropertyBlock.UpsertOnlyTags | src/utils.ts:87-112 | a record holding only a tags list changes nothing but the tags |
| PropertyBlock.ReplaceSettles | src/utils.ts:106-108 | after the global replace with a template that is one whole `key::` line without `$`, every `key::` match in the result is that line |
| PropertyBlock.TagsStepSettled | src/utils.ts:105-110 | on a block whose `tags::` occurrences are all the line `tags:: v`, the tags step with `v` gives the block back unchanged |
| PropertyBlock.TagsWriteSettles | src/utils.ts:105-110 | after the tags step with a `v` holding no `$` and no line break, the block is settled for `v` |
| PropertyBlock.TagsWriteIdempotent | src/utils.ts:105-110 | the tags step with such a `v`, applied twice, is the same as applied once |
| PropertyBlock.NewBlockSettles | src/utils.ts:84-112 | the empty block rewritten with truthy tags is settled for the merged tags, when no other property line holds `tags::` |
| PropertyBlock.TagsStepAppends | src/utils.ts:106-110 | without a `tags::` line the tags step only appends |
| Host.PageByHash | src/utils.ts:28-31 | the page found is the earliest page whose `hash` property is the hash; there is none exactly when no page has it |
| Host.PageByHashStable | src/utils.ts:28-31 | the lookup depends only on the pages and their properties blocks |
| Host.AddPageAdds | src/utils.ts:22 | a new page only adds to the store and moves no older page's properties block |
| Host.InsertAfter | src/utils.ts:73-74 | a sibling insert puts the new block right after the source block and changes no other list or content |
| Host.InsertAfterBlocks | src/utils.ts:73-74 | the list read after a sibling insert holds the new block right after the source block |
| Host.AppendChild | src/utils.ts:79 | a child insert makes the new block the last child of its parent and changes nothing else: no list of blocks and no title |
| Host.AppendChildAdds | src/utils.ts:79 | a child insert only adds to the store and moves no page's properties block |
| Host.SetContent | src/utils.ts:113 | `updateBlock` changes that one block's content and nothing else |
| Host.BlocksOfAppend | src/utils.ts:79 | after a child insert the parent's children read as before plus the new block at the end, and every other list reads as before |
| Host.Store.CreatePage | src/utils.ts:22 | the host page creation on the store: nothing for an empty or used title, otherwise a new last page |
| Host.Store.InsertSibling | src/utils.ts:73-74 | the sibling insert on the store; the block returned has the next id |
| Host.Store.InsertChild | src/utils.ts:79 | the child insert on the store; the block returned has the next id |
| Host.Store.UpdateBlock | src/utils.ts:113 | the content write on the store |
| Pages.FirstMatch | src/utils.ts:61 | the position found starts with `text`, and no block before it does |
| Pages.FindBlockByTextFirst | src/utils.ts:60-62 | `findBlockByText` gives the first block starting with `text`, and none exactly when the blocks are absent or none matches |
| Pages.FirstMatchAppend | src/utils.ts:61 | a block appended last leaves an earlier match in place, and becomes the match when there was none |
| Pages.UpsertPagePropertiesFails | src/utils.ts:52-58 | the upsert fails exactly when the page is unknown or has no blocks, with the source's message for each, and then writes nothing |
| Pages.UpsertPagePropertiesWrites | src/utils.ts:55-57 | otherwise its one write replaces the properties block's content with the rewritten content and changes nothing else: no list of blocks and no title |
| Pages.UpsertWritesBack | src/utils.ts:52-58 | an upsert whose rewrite gives the block's own content back leaves the store as it is and succeeds |
| Pages.UpsertPageProperties | src/utils.ts:52-58 | `upsertPageProperties` on the store |
| Pages.CreatePageBlockFails | src/utils.ts:69-72 | `createPageBlock` fails exactly when the page is unknown or has no first block, and then writes nothing |
| Pages.CreatePageBlockInserts | src/utils.ts:69-76 | otherwise the root blocks become the first block, an empty block, the new block, then the rest; nothing is removed and no content changes |
| Pages.CreatePageBlockFinds | src/utils.ts:64-76 | when no root block started with `content`, a lookup by that text then finds the block just created |
| Pages.CreatePageBlock | src/utils.ts:69-76 | `createPageBlock` on the store |
| Pages.CreateChildBlock | src/utils.ts:78-80 | `createChildBlock` on the store: the block becomes the parent's last child |
| Pages.CreatePageEffect | src/utils.ts:16-26 | page creation fails, writing nothing, exactly when the host refuses the title; otherwise there is one new last page, whose properties block is the empty block rewritten with `{hash, ...properties}`; only blocks are added, no older block's content changes and no older list of blocks gains or loses a block |
| Pages.CreatePage | src/utils.ts:16-26 | `createPage` on the store |
| Source.HighlightFails | src/sources/source.ts:56-58 | `createHighlight` fails exactly when no page has the hash or that page has no blocks, and then writes nothing |
| Source.HighlightOnlyAdds | src/sources/source.ts:54-77 | the call only adds blocks: nothing is removed or reordered, no existing content changes, and no title or properties block changes |
| Source.HighlightRecords | src/sources/source.ts:54-77 | after a successful call the highlight is recorded: under its date group when it is dated, otherwise directly under the highlights block |
| Source.HighlightIdempotent | src/sources/source.ts:67-75 | calling again after a success changes nothing |
| Source.HighlightNoopWhenRecorded | src/sources/source.ts:67-75 | a highlight already recorded is skipped |
| Source.HighlightKeepsRecorded | src/sources/source.ts:54-77 | filing one highlight keeps every highlight already recorded on the page recorded |
| Source.HighlightsBlockCount | src/sources/source.ts:56-58 | at most one `## highlights` block is made: the count of root blocks starting with it stays the same, or goes from none to one |
| Source.FoundKeepsRoots | src/sources/source.ts:56-76 | when the highlights block exists, the page's root blocks read the same after the call |
| Source.RootsAfterCreate | src/sources/source.ts:59-76 | after the highlights block is made, the entry inserts leave the page's root blocks alone |
| Source.CreateHighlight | src/sources/source.ts:54-77 | `createHighlight` on the store |
| Bookmarks.ChainStops | src/sources/source.ts:26-30 | a failed run failed in one step: every step before it completed, and no later step ran |
| Bookmarks.ChainCompletes | src/sources/source.ts:26-30 | a completed run completed every step, each on the store the steps before it left |
| Bookmarks.CreationPropsGet | src/sources/source.ts:39-44 | the new page's record: `bookmark.properties` wins, then `created` (the journal link), `url`, `tags`, and `hash`; any other key is unset |
| Bookmarks.BookmarkExistingPage | src/sources/source.ts:33-37 | with a page for the hash, no page is created and no title changes; without tags nothing is written; with tags the one write is the tags step on the properties block, and no block is added and no list of blocks changes |
| Bookmarks.BookmarkNewPage | src/sources/source.ts:38-45 | without such a page, the page is created from the bookmark's record, and the step fails exactly when page creation does; on success older pages, older lists of blocks and older contents are as before, and blocks are only added |
| Bookmarks.HighlightsOnlyAdd | src/sources/source.ts:47-51 | filing a bookmark's highlights only adds blocks |
| Bookmarks.HighlightsRecorded | src/sources/source.ts:47-51 | after the highlights are filed without a failure, every one of them is recorded |
| Bookmarks.BookmarkGrows | src/sources/source.ts:32-52 | a bookmark only grows the store |
| Bookmarks.BookmarkRecordsHighlights | src/sources/source.ts:32-52 | a bookmark processed without a failure has all its highlights recorded |
| Bookmarks.HighlightsNoop | src/sources/source.ts:47-51 | when every highlight is recorded already, filing them all writes nothing and succeeds |
| Bookmarks.TagsUpsertIdle | src/sources/source.ts:37 | the tags upsert on a page whose properties block is settled writes nothing and succeeds |
| Bookmarks.PageStepIdle | src/sources/source.ts:33-37 | on a page found by hash whose block is settled for the bookmark's tags, the page step writes nothing and succeeds |
| Bookmarks.BookmarkIdempotent | src/sources/source.ts:32-52 | after a successful `createBookmark`, a second identical call writes nothing and succeeds, when the page is found again by hash and its block is settled |
| Bookmarks.ExistingPageIdle | src/sources/source.ts:33-37 | after a first run on an existing page, that page is again the one found by hash and its rewritten block is settled, given the hash and tags the host reads back |
| Bookmarks.NewPageIdle | src/sources/source.ts:38-45 | after a first run that created the page, the new last page is the one found by hash and its block is settled, given the hash and tags the host reads back |
| Bookmarks.BookmarkTwice | src/sources/source.ts:32-52 | `createBookmark` run twice on the same bookmark: the second run leaves one page with the same properties block and files no highlight twice, writing nothing at all |
| Bookmarks.BookmarksGrow | src/sources/source.ts:26-30 | the bookmarks together only grow the store |
| Bookmarks.BookmarksStop | src/sources/source.ts:26-30 | a failing bookmark ends `createBookmarks`: the earlier ones were processed and no later one is |
| Bookmarks.HighlightsStop | src/sources/source.ts:47-51 | the same for the highlights of one bookmark |
| Bookmarks.CreateBookmark | src/sources/source.ts:32-52 | `createBookmark` on the store |
| Bookmarks.CreateHighlights | src/sources/source.ts:47-51 | the highlights loop on the store |
| Bookmarks.CreateBookmarks | src/sources/source.ts:26-30 | `createBookmarks` on the store |
| Bookmarks.Settings.Update | src/utils.ts:165-167 | a settings write sets one entry |
| Bookmarks.Sync | src/sources/source.ts:20-24 | `sync` on the store; the last-sync stamp is written only when every bookmark was processed |
| Bookmarks.SyncOutcomes | src/sources/source.ts:20-24 | a disabled source writes nothing; a failing `getBookmarks` writes nothing; otherwise the store is what `createBookmarks` left, and the sync completes exactly when every bookmark did |
| Bookmarks.SyncStops | src/sources/source.ts:20-24 | when a bookmark fails, the sync stops at that bookmark |
| Readwise.GroupedLists | src/sources/readwise.ts:31-44 | each book's list holds, in API order, the records of exactly the highlights whose book is that book; a book has a list exactly when it has a highlight |
| Readwise.GroupByBook | src/sources/readwise.ts:31-44 | the grouping loop builds that dictionary |
| Readwise.HighlightFields | src/sources/readwise.ts:35-42 | a highlight's record: the hashed id, the text, the tag names in order (unset when there are none), no properties, and the highlight time |
| Readwise.HighlightInGroup | src/sources/readwise.ts:31-44 | every highlight's record is in the list of its book |
| Readwise.AddEach | src/sources/readwise.ts:47 | `ids.add` for each element keeps the set in first-insertion order |
| Readwise.BookIds | src/sources/readwise.ts:46-47 | the id set built is the candidate ids |
| Readwise.CandidateIdsUnion | src/sources/readwise.ts:46-47 | the candidate ids are, without repeats, the fetched books' ids (first, in their order) and the highlights' book ids |
| Readwise.Made | src/sources/readwise.ts:82 | `.filter((b) => b)` keeps exactly the bookmarks made |
| Readwise.GetBookmarks | src/sources/readwise.ts:27-83 | `getBookmarks` builds the bookmarks from the groups and the ids |
| Readwise.BookmarkFields | src/sources/readwise.ts:49-82 | only articles and tweets make a bookmark: the hash of the source URL or of the id, the URL, the title, the category's tags, the linked author or none, highlights exactly when the book has some |
| Readwise.BookmarkHighlightsSorted | src/sources/readwise.ts:60-74 | a book's highlights are sorted by location, keep their API order at equal locations, and none is lost or added |
| Readwise.HighlightReachesBookmark | src/sources/readwise.ts:27-83 | every highlight of an article or tweet book ends up in that book's bookmark |
| Types.Present | src/sources/readwise.ts:18-21 | `!!rwApiKey` holds exactly when the setting's value is truthy; the Hacker News `enabled` (src/sources/hn.ts:17-20) is the same test of `hnUsername` |
| Readwise.LastSyncReadsBack | src/sources/readwise.ts:14-25 | the stamp written is read back by `parseInt` as the same time |
| HackerNews.HN.GetBookmarks | src/sources/hn.ts:28-49 | one bookmark per item, in item order; `lastId` becomes the first item's id, or none for no items |
| HackerNews.HN.LastSync | src/sources/hn.ts:22-26 | `hnLastSync` is written exactly when `lastId` is set, with that id |
| HackerNews.BookmarkFields | src/sources/hn.ts:32-47 | the URL, or the discussion page when there is none; the hash of that URL; `hn-url` always the discussion page; the fixed tags; the linked author; `posted` from the item time |
| HackerNews.UrlsDistinct | src/sources/hn.ts:33-34 | items without their own URL have distinct URLs when their ids differ |
| Pocket.BookmarksOfKept | src/sources/pocket.ts:25-42 | exactly the items with a resolved id and title make bookmarks, in item order |
| Pocket.BookmarkFields | src/sources/pocket.ts:30-39 | the URL or `""`, its hash (so `"0"` for every item without a URL), the title, the fixed tags, and a date exactly when `time_added` is set |
| Pocket.AddedAtSecond | src/sources/pocket.ts:38 | a decimal `time_added` dates the bookmark at that second |
| Pocket.Enabled | src/sources/pocket.ts:16-19 | `enabled` needs both the consumer key and the access token |
| Pocket.LastSyncReadsBack | src/sources/pocket.ts:21-23 | the stamp `String(Date.now() / 1000)` starts with the whole second it was written in, which is what `parseInt` reads from it |

## Left out

- I/O and the API clients (`src/clients/*`): HTTP, JSON decoding and
  paging. The adapters take the clients' results as inputs. The HN `since`
  cutoff and the Pocket `sort_id` order belong to the clients.
- `src/index.tsx` (the toolbar, the per-source loop and the settings
  schema) and `src/build.ts` (bundling).
- `getJournalLink` and the date formatting of `logseq-dateutils`. They are
  the uninterpreted `journal` function.
- `Date` parsing. A date is recorded as the value it was built from.
- The Logseq query engine and property parser. These are `PageByHash` and
  the uninterpreted `readProp`.
- `Promise.all` in the adapters. It is an ordered map, and nothing runs
  concurrently.
- `getPageProperties` (src/utils.ts:47-50) is not called by the core, so it
  is not modelled.
- The constructors' reading of the last-sync stamps: only the Readwise
  `parseInt` round trip is stated.
- `Bookmarks.Sync`: it takes what `getBookmarks` returned and the entry
  `setLastSync` writes as parameters, rather than calling the adapter.
- `HackerNews.Item`: the API field `by` is named `byUser`, because `by` is
  a Dafny keyword.
- `Bookmarks.BookmarkTwice`: the second run is shown to write nothing
  under hypotheses about the host's property parser, which the model does
  not interpret. The parser must read back, from the block the first run
  wrote, the bookmark's hash and tags whose merge is the tags text written.
  That text must hold no `$`. With a `$`, `replace` expands it and the block
  changes again (`PropertyBlock.ReplaceExpandsMatch`). It must hold no line
  break, and no other property line of a new page may hold `tags::`;
  otherwise the global replace rewrites more than the tags line.
- `Text.ParseInt`: white space is limited to space, tab, line feed, carriage
  return, vertical tab and form feed. Other Unicode white space is not
  skipped.
- `Pocket.LastSync`: the JavaScript formatting of
  `String(Date.now() / 1000)` is modelled for a non-negative millisecond
  count `n` only, as whole seconds plus up to three decimals with trailing
  zeros dropped. This agrees with JavaScript while `n` is below
  2^43 * 1000 (about 8.8e15), which covers every count `Date.now()` can
  return (at most 8.64e15). There the doubles near `n / 1000` lie less than
  0.001 apart, so the three-decimal string is the shortest decimal that
  reads back as the quotient, and that is the string `String` writes. Above
  that bound JavaScript's digits can differ from the model's.
- `Readwise.ApiHighlight`: `location` is an integer, while the API types it
  as a `number`. A fractional location is not represented, and the sort by
  `a.location - b.location` is stated for integer locations.
- `Titles.NormalizeTitle`: `slice` counts UTF-16 code units. After the
  replacements every character is ASCII, so each is one code unit and
  counting characters is the same.
