/** Tag handling of src/utils.ts: `normalizeTag` (116-118), `getTagLink`
    (120-129) and the tag union of `upsertBlockProperties` (87-93). */
module Tags {
  import opened Types
  import opened Seqs
  import opened Text

  /** `.replace(/#|[|]/, '')`: the regular expression has no `g` flag, so
      only the first `#` or `|` goes. */
  function NormalizeTag(tag: string): (r: string)
    ensures |r| == if '#' in tag || '|' in tag then |tag| - 1 else |tag|
  {
    if tag == [] then []
    else if tag[0] == '#' || tag[0] == '|' then tag[1..]
    else [tag[0]] + NormalizeTag(tag[1..])
  }

  /** The position of the first `#` or `|`, if there is one. */
  function FirstMark(tag: string): (r: Option<nat>)
    ensures r.None? <==> '#' !in tag && '|' !in tag
    ensures r.Some? ==>
              && r.value < |tag| && (tag[r.value] == '#' || tag[r.value] == '|')
              && '#' !in tag[..r.value] && '|' !in tag[..r.value]
  {
    if tag == [] then None
    else if tag[0] == '#' || tag[0] == '|' then Some(0)
    else
      match FirstMark(tag[1..])
      case None => None
      case Some(i) =>
        assert tag[1..][..i] == tag[1..i + 1];
        assert tag[..i + 1] == [tag[0]] + tag[1..i + 1];
        Some(i + 1)
  }

  /** `normalizeTag` deletes exactly the first `#` or `|` and keeps every
      other character in place; a tag without either comes back unchanged. */
  lemma {:induction false} NormalizeTagRemovesFirst(tag: string)
    ensures match FirstMark(tag)
      case None => NormalizeTag(tag) == tag
      case Some(i) => NormalizeTag(tag) == tag[..i] + tag[i + 1..]
  {
    if tag == [] {
    } else if tag[0] == '#' || tag[0] == '|' {
      assert FirstMark(tag) == Some(0) && tag[..0] + tag[1..] == tag[1..];
    } else {
      var rest := tag[1..];
      UnmarkedStep(tag);
      NormalizeTagRemovesFirst(rest);
      match FirstMark(rest)
      case None =>
        assert [tag[0]] + rest == tag;
      case Some(i) =>
        SpliceStep(tag, i);
    }
  }

  /** Both functions step over a first character that is not a mark. */
  lemma UnmarkedStep(tag: string)
    requires tag != [] && tag[0] != '#' && tag[0] != '|'
    ensures NormalizeTag(tag) == [tag[0]] + NormalizeTag(tag[1..])
    ensures FirstMark(tag) == match FirstMark(tag[1..]) case None => None case Some(i) => Some(i + 1)
  {
  }

  lemma SpliceStep(tag: string, i: nat)
    requires 0 < |tag| && i + 1 < |tag|
    ensures [tag[0]] + (tag[1..][..i] + tag[1..][i + 1..]) == tag[..i + 1] + tag[i + 2..]
  {
    assert tag[..i + 1] == [tag[0]] + tag[1..][..i];
    assert tag[i + 2..] == tag[1..][i + 1..];
  }

  /** `getTagLink`: a tag with a space is wrapped in `[[...]]`, and a `#` is
      put in front unless there already is one. */
  function GetTagLink(tag: string): (r: string)
    ensures |r| > 0 && r[0] == '#'
    ensures ' ' in tag ==> r == "#[[" + tag + "]]"
    ensures ' ' !in tag && |tag| > 0 && tag[0] == '#' ==> r == tag
    ensures ' ' !in tag && !(|tag| > 0 && tag[0] == '#') ==> r == "#" + tag
  {
    var formatted := if ' ' in tag then "[[" + tag + "]]" else tag;
    if "#" <= formatted then formatted else "#" + formatted
  }

  /** Old tags as the host parsed them: a list counts, a string or nothing
      counts as no tags (`block.properties?.tags || []`). */
  function OldTagList(stored: Value): seq<string> {
    match stored
    case List(xs) => xs
    case _ => []
  }

  /** The `tags` argument: a string adds nothing (`typeof tags === 'string'`). */
  function NewTagList(tags: Value): seq<string> {
    match tags
    case List(xs) => xs
    case _ => []
  }

  /** `[...new Set([...oldTags.map(normalizeTag), ...newTags.map(normalizeTag)])]` */
  function MergeTags(stored: Value, tags: Value): seq<string> {
    Dedupe(Map(OldTagList(stored), NormalizeTag) + Map(NewTagList(tags), NormalizeTag))
  }

  /** `#` before every tag. */
  function Hashed(t: string): string {
    "#" + t
  }

  /** The serialized `tags` value: `#tag` tokens joined by `", "`. */
  function TagsText(merged: seq<string>): string {
    Join(", ", Map(merged, Hashed))
  }

  /** The union never drops or reorders a stored tag: the normalized,
      de-duplicated stored tags come first, then the new tags not already
      present, with no tag twice; nothing else is in it. */
  lemma MergeTagsUnion(stored: Value, tags: Value)
    ensures var olds := Map(OldTagList(stored), NormalizeTag);
      var news := Map(NewTagList(tags), NormalizeTag);
      var m := MergeTags(stored, tags);
      && Dedupe(olds) <= m
      && NoDup(m)
      && (forall t :: t in m <==> t in olds || t in news)
      && |Dedupe(olds)| <= |m|
  {
    DedupePrefix(Map(OldTagList(stored), NormalizeTag), Map(NewTagList(tags), NormalizeTag));
  }

  /** Re-sending tags that are all present already is a no-op. */
  lemma MergeTagsIdempotent(stored: Value, tags: Value)
    requires forall t :: t in Map(NewTagList(tags), NormalizeTag) ==> t in Map(OldTagList(stored), NormalizeTag)
    ensures MergeTags(stored, tags) == Dedupe(Map(OldTagList(stored), NormalizeTag))
  {
    DedupeAbsorbs(Map(OldTagList(stored), NormalizeTag), Map(NewTagList(tags), NormalizeTag));
  }

  /** Old tags stored as a string, or missing, are treated as none, and a
      string `tags` argument contributes nothing. */
  lemma MergeTagsIgnoresStrings(s: string, t: string, xs: seq<string>)
    ensures MergeTags(Str(s), List(xs)) == MergeTags(Undef, List(xs))
    ensures MergeTags(List(xs), Str(t)) == Dedupe(Map(xs, NormalizeTag))
  {
    assert Map(xs, NormalizeTag) + [] == Map(xs, NormalizeTag);
    assert [] + Map(xs, NormalizeTag) == Map(xs, NormalizeTag);
  }
}
