/** The property-block rewriter `upsertBlockProperties` (src/utils.ts:82-114)
    as a function from the block's content, the tags the host parsed from it
    and the new property record to the new content. The closing
    `updateBlock` is the store write of `Pages.UpsertPageProperties`. */
module PropertyBlock {
  import opened Types
  import opened Seqs
  import opened Text
  import opened Tags

  /** `UPSERT_PROPERTIES`: the keys whose existing line is rewritten. */
  const UpsertKeys: seq<string> := ["tags"]

  /** `PROPERTY_ORDER` */
  const PropertyOrder: seq<string> := ["tags", "author", "url", "hn-url", "__other__", "hash"]

  /** `order.findIndex((p) => key === p || p === '__other__')`, -1 if none. */
  function FindIndex(order: seq<string>, key: string): (r: int)
    ensures -1 <= r < |order|
    ensures r >= 0 ==> order[r] == key || order[r] == "__other__"
    ensures forall i :: 0 <= i < |order| && (r < 0 || i < r) ==> order[i] != key && order[i] != "__other__"
  {
    if order == [] then -1
    else if key == order[0] || order[0] == "__other__" then 0
    else
      var r := FindIndex(order[1..], key);
      if r < 0 then -1 else r + 1
  }

  /** The sort rank of a key. */
  function Rank(key: string): int {
    FindIndex(PropertyOrder, key)
  }

  /** `tags` ranks 0, `author` 1, `url` 2, `hn-url` 3, and every other key
      4: `__other__` is met before `hash`, so `hash` ranks with the rest
      rather than last. */
  lemma RankValues(key: string)
    ensures Rank(key) == if key == "tags" then 0
                         else if key == "author" then 1
                         else if key == "url" then 2
                         else if key == "hn-url" then 3
                         else 4
  {
    var order := PropertyOrder;
    assert order[0] == "tags" && order[1] == "author" && order[2] == "url";
    assert order[3] == "hn-url" && order[4] == "__other__";
    assert 0 <= FindIndex(order, key) <= 4;
  }

  /** `const { k, ...rest } = p`: the record without the entries for `k`. */
  function Without(p: Properties, k: string): (r: Properties)
    ensures k !in Keys(r)
    ensures forall j :: j != k ==> Get(r, j) == Get(p, j)
    ensures forall j :: j in Keys(r) <==> j in Keys(p) && j != k
    decreases |p|
  {
    if p == [] then []
    else if p[0].0 == k then Without(p[1..], k)
    else
      var r := [p[0]] + Without(p[1..], k);
      assert r[1..] == Without(p[1..], k);
      r
  }

  /** `newProps` after the tag merge: the other properties, with `tags`
      added last as the merged `#tag, #tag` string when `tags` is truthy. */
  function Plan(stored: Value, props: Properties): Properties {
    var tags := Get(props, "tags");
    var rest := Without(props, "tags");
    if Truthy(tags) then Put(rest, "tags", Str(TagsText(MergeTags(stored, tags)))) else rest
  }

  /** `Object.keys(newProps).sort(...)` */
  function SortedKeys(plan: Properties): seq<string> {
    SortBy(Keys(plan), Rank)
  }

  /** A truthy value as it is written: an array is joined with `", "`. */
  function ValueText(v: Value): string {
    match v
    case List(xs) => Join(", ", xs)
    case Str(s) => s
    case Undef => ""
  }

  /** Length of the match of `key::[^\n]*\n` at the start of `s`. */
  function LineMatch(s: string, key: string): (r: Option<nat>)
    ensures r.Some? ==>
              && |key| + 3 <= r.value <= |s| && key + "::" <= s && s[r.value - 1] == '\n'
              && '\n' !in s[|key| + 2..r.value - 1]
    ensures r.None? ==> !(key + "::" <= s) || '\n' !in s[|key| + 2..]
  {
    var head := key + "::";
    if head <= s then
      match IndexOf(s[|head|..], '\n')
      case Some(j) =>
        assert s[|head|..][..j] == s[|head|..|head| + j];
        Some(|head| + j + 1)
      case None => None
    else None
  }

  /** The replacement text for one match, as `String.prototype.replace`
      forms it from the template `tpl` (GetSubstitution, section 22.1.3.19.1
      of ECMA-262): `$$` gives `$`, `$&` the match `m`, `` $` `` the text
      `before` the match and `$'` the text `after` it. The pattern has no
      capture groups, so `$1` and `$<` stay as written, and so does every
      other `$`. */
  function Substitute(tpl: string, before: string, m: string, after: string): string
    decreases |tpl|
  {
    if tpl == [] then []
    else if |tpl| >= 2 && tpl[0] == '$' && tpl[1] in "$&`'" then
      Expansion(tpl[1], before, m, after) + Substitute(tpl[2..], before, m, after)
    else [tpl[0]] + Substitute(tpl[1..], before, m, after)
  }

  /** What `$c` stands for, for the four patterns `c` the template expands. */
  function Expansion(c: char, before: string, m: string, after: string): string {
    if c == '$' then "$" else if c == '&' then m else if c == '`' then before else after
  }

  /** A template without `$` is inserted as written. */
  lemma {:induction false} SubstituteLiteral(tpl: string, before: string, m: string, after: string)
    requires '$' !in tpl
    ensures Substitute(tpl, before, m, after) == tpl
    decreases |tpl|
  {
    if tpl != [] {
      assert tpl[0] != '$';
      SubstituteLiteral(tpl[1..], before, m, after);
    }
  }
  /** The global replacement on the text `rest` that follows the already
      scanned text `before`: every non-overlapping match, scanning left to
      right, becomes the template's substitution for that match. */
  function ReplaceFrom(rest: string, before: string, key: string, tpl: string): string
    decreases |rest|
  {
    if rest == [] then []
    else
      var m := LineMatch(rest, key);
      if m.Some? then
        var n := m.value;
        Substitute(tpl, before, rest[..n], rest[n..]) + ReplaceFrom(rest[n..], before + rest[..n], key, tpl)
      else [rest[0]] + ReplaceFrom(rest[1..], before + [rest[0]], key, tpl)
  }

  /** `s.replace(new RegExp(`${key}::[^\n]*\n`, 'g'), tpl)` */
  function ReplaceLines(s: string, key: string, tpl: string): string {
    ReplaceFrom(s, [], key, tpl)
  }

  lemma {:induction false} ReplaceFromAbsent(rest: string, before: string, key: string, tpl: string)
    requires !Contains(rest, key + "::")
    ensures ReplaceFrom(rest, before, key, tpl) == rest
    decreases |rest|
  {
    if rest != [] {
      assert LineMatch(rest, key).None?;
      ReplaceFromAbsent(rest[1..], before + [rest[0]], key, tpl);
    }
  }

  /** Without an occurrence of `key::` the replacement leaves `s` alone. */
  lemma ReplaceLinesAbsent(s: string, key: string, tpl: string)
    requires !Contains(s, key + "::")
    ensures ReplaceLines(s, key, tpl) == s
  {
    ReplaceFromAbsent(s, [], key, tpl);
  }

  /** Every match the global replacement finds in `rest` is the text `line`
      itself. */
  predicate LinesAre(rest: string, key: string, line: string)
    decreases |rest|
  {
    if rest == [] then true
    else
      var m := LineMatch(rest, key);
      if m.Some? then rest[..m.value] == line && LinesAre(rest[m.value..], key, line)
      else LinesAre(rest[1..], key, line)
  }

  /** One step of the scan at a match of length `n`. */
  lemma ReplaceFromMatch(rest: string, before: string, n: nat, key: string, tpl: string)
    requires LineMatch(rest, key) == Some(n)
    ensures 0 < n <= |rest|
    ensures ReplaceFrom(rest, before, key, tpl)
         == Substitute(tpl, before, rest[..n], rest[n..]) + ReplaceFrom(rest[n..], before + rest[..n], key, tpl)
  {
  }

  /** When every match already is the literal template, the replacement
      changes nothing. */
  lemma {:induction false} ReplaceFromSettled(rest: string, before: string, key: string, line: string)
    requires '$' !in line && LinesAre(rest, key, line)
    ensures ReplaceFrom(rest, before, key, line) == rest
    decreases |rest|
  {
    if rest != [] {
      var m := LineMatch(rest, key);
      if m.Some? {
        var n := m.value;
        ReplaceFromSettled(rest[n..], before + rest[..n], key, line);
        SettledMatch(rest, before, n, key, line);
      } else {
        ReplaceFromSettled(rest[1..], before + [rest[0]], key, line);
        SplitAt(rest, 1);
        assert rest[..1] == [rest[0]];
      }
    }
  }

  /** One step of `ReplaceFromSettled`: a match that already is the
      template is written back as it was. */
  lemma SettledMatch(rest: string, before: string, n: nat, key: string, line: string)
    requires '$' !in line && LineMatch(rest, key) == Some(n) && n <= |rest| && rest[..n] == line
    requires ReplaceFrom(rest[n..], before + rest[..n], key, line) == rest[n..]
    ensures ReplaceFrom(rest, before, key, line) == rest
  {
    ReplaceFromMatch(rest, before, n, key, line);
    SubstituteLiteral(line, before, rest[..n], rest[n..]);
    SplitAt(rest, n);
  }

  lemma SplitAt(s: string, n: nat)
    requires n <= |s|
    ensures s[..n] + s[n..] == s
  {
  }

  /** A properties block on which writing the tags text `v` changes
      nothing: `v` is empty, or the block has a `tags::` and every match of
      the `tags::` pattern in it is the line `tags:: v` already. */
  predicate TagsSettled(c: string, v: string) {
    v == "" || (Contains(c, "tags::") && '$' !in v && LinesAre(c, "tags", "tags:: " + v + "\n"))
  }

  /** The tags step on a settled block leaves it as it is. */
  lemma TagsStepSettled(c: string, v: string)
    requires TagsSettled(c, v)
    ensures ApplyProp(c, "tags", Str(v)) == c
  {
    if v != "" {
      assert "tags" + "::" == "tags::";
      assert "tags" + ":: " + v + "\n" == "tags:: " + v + "\n";
      ReplaceFromSettled(c, [], "tags", "tags:: " + v + "\n");
    }
  }

  /** Writing a tags text without `$` and without a line break settles the
      block: whatever it held, the written block is settled for that text. */
  lemma TagsWriteSettles(c: string, v: string)
    requires '$' !in v && '\n' !in v
    ensures TagsSettled(ApplyProp(c, "tags", Str(v)), v)
  {
    if v != "" {
      assert "tags" + "::" == "tags::";
      TagsLine(v);
      if Contains(c, "tags::") {
        TagsReplaceSettles(c, v);
      } else {
        TagsAppendSettles(c, v);
      }
    }
  }

  lemma TagsReplaceSettles(c: string, v: string)
    requires '$' !in v && '\n' !in v && v != "" && Contains(c, "tags::")
    ensures TagsSettled(ApplyProp(c, "tags", Str(v)), v)
  {
    var line := "tags:: " + v + "\n";
    TagsLine(v);
    assert "tags" + "::" == "tags::";
    assert "tags" + ":: " + v + "\n" == line;
    ReplaceSettles(c, [], "tags", line);
    ContainsKept(c, [], "tags", line);
  }

  lemma TagsAppendSettles(c: string, v: string)
    requires '$' !in v && '\n' !in v && v != "" && !Contains(c, "tags::")
    ensures TagsSettled(ApplyProp(c, "tags", Str(v)), v)
  {
    TagsAppendShape(c, v);
    TailFacts(v);
    AppendSettled(c, "\n" + "tags:: " + v, "tags", "tags:: " + v + "\n");
    AppendContains(c, v);
  }

  lemma AppendContains(c: string, v: string)
    ensures Contains(c + ("\n" + "tags:: " + v), "tags::")
  {
    ContainsSuffix(c + "\n", "tags:: " + v, "tags::");
    assert (c + "\n") + ("tags:: " + v) == c + ("\n" + "tags:: " + v);
  }

  /** Without a `tags::` in the block, the tags line is appended. */
  lemma TagsAppendShape(c: string, v: string)
    requires v != "" && !Contains(c, "tags::")
    ensures ApplyProp(c, "tags", Str(v)) == c + ("\n" + "tags:: " + v)
  {
    assert "tags" + "::" == "tags::";
    assert ApplyProp(c, "tags", Str(v)) == c + "\n" + "tags" + ":: " + v;
    AppendLine(c, v);
  }

  lemma AppendLine(c: string, v: string)
    ensures c + "\n" + "tags" + ":: " + v == c + ("\n" + "tags:: " + v)
  {
    assert "\n" + "tags" + ":: " == "\n" + "tags:: ";
  }

  lemma TailFacts(v: string)
    ensures var tail := "\n" + "tags:: " + v;
      tail != [] && tail[0] == '\n' && tail[1..] == "tags:: " + v
    ensures !Contains([], "tags" + "::") && '\n' !in "tags" && "tags" + "::" == "tags::"
  {
  }

  /** So the tags step is idempotent for a text without `$` or a line
      break: writing the same tags twice gives the block of the first write. */
  lemma TagsWriteIdempotent(c: string, v: string)
    requires '$' !in v && '\n' !in v
    ensures ApplyProp(ApplyProp(c, "tags", Str(v)), "tags", Str(v)) == ApplyProp(c, "tags", Str(v))
  {
    TagsWriteSettles(c, v);
    TagsStepSettled(ApplyProp(c, "tags", Str(v)), v);
  }

  lemma TagsLine(v: string)
    requires '$' !in v && '\n' !in v
    ensures IsLine("tags:: " + v + "\n", "tags") && '$' !in "tags:: " + v + "\n"
  {
    var line := "tags:: " + v + "\n";
    assert line[..6] == "tags::";
    assert line[6..|line| - 1] == " " + v;
  }

  /** `line` is one whole `key::` line: it starts with `key::`, and its
      only line break ends it. */
  predicate IsLine(line: string, key: string) {
    && key + "::" <= line && |key| + 2 < |line| && line[|line| - 1] == '\n'
    && '\n' !in line[|key| + 2..|line| - 1] && '\n' !in key
  }

  /** A whole line in front of any text is matched as a whole. */
  lemma LineMatchFront(line: string, x: string, key: string)
    requires IsLine(line, key)
    ensures LineMatch(line + x, key) == Some(|line|)
  {
    var s := line + x;
    var head := key + "::";
    assert s[..|head|] == line[..|head|];
    var tail := s[|head|..];
    var k := |line| - 1 - |head|;
    assert tail[k] == '\n';
    assert tail[..k] == line[|head|..|line| - 1];
    var j := IndexOf(tail, '\n');
    assert j.Some?;
    assert j.value == k;
  }

  /** Ahead of settled text, a whole line keeps it settled. */
  lemma LineThenSettled(line: string, x: string, key: string)
    requires IsLine(line, key) && LinesAre(x, key, line)
    ensures LinesAre(line + x, key, line)
  {
    LineMatchFront(line, x, key);
    assert (line + x)[..|line|] == line && (line + x)[|line|..] == x;
  }

  /** A text without a line break has no match. */
  lemma {:induction false} NoBreakSettled(rest: string, key: string, line: string)
    requires '\n' !in rest
    ensures LinesAre(rest, key, line)
    decreases |rest|
  {
    if rest != [] {
      assert LineMatch(rest, key).None?;
      NoBreakSettled(rest[1..], key, line);
    }
  }

  /** A text whose one line break starts the part `tail` appended to a
      text without `key::` has no match. */
  lemma {:induction false} AppendSettled(c: string, tail: string, key: string, line: string)
    requires !Contains(c, key + "::") && '\n' !in key
    requires tail != [] && tail[0] == '\n' && '\n' !in tail[1..]
    ensures LinesAre(c + tail, key, line)
    decreases |c|
  {
    var head := key + "::";
    var s := c + tail;
    assert '\n' !in head by {
      assert head[|key|] == ':' && head[|key| + 1] == ':';
    }
    assert !(head <= s) by {
      if |head| <= |c| {
        assert s[..|head|] == c[..|head|];
      } else {
        assert s[|c|] == '\n';
      }
    }
    if c == [] {
      assert s == tail;
      NoBreakSettled(tail[1..], key, line);
    } else {
      assert s[1..] == c[1..] + tail;
      AppendSettled(c[1..], tail, key, line);
    }
  }

  /** Writing whole literal lines over every match leaves a text whose
      every match is that line. */
  lemma {:induction false} ReplaceSettles(rest: string, before: string, key: string, line: string)
    requires IsLine(line, key) && '$' !in line
    ensures LinesAre(ReplaceFrom(rest, before, key, line), key, line)
    decreases |rest|
  {
    if rest != [] {
      var m := LineMatch(rest, key);
      if m.Some? {
        var n := m.value;
        ReplaceFromMatch(rest, before, n, key, line);
        SubstituteLiteral(line, before, rest[..n], rest[n..]);
        ReplaceSettles(rest[n..], before + rest[..n], key, line);
        LineThenSettled(line, ReplaceFrom(rest[n..], before + rest[..n], key, line), key);
      } else {
        var r' := ReplaceFrom(rest[1..], before + [rest[0]], key, line);
        var r := ReplaceFrom(rest, before, key, line);
        ReplaceSettles(rest[1..], before + [rest[0]], key, line);
        NoMatchKept(rest, before, key, line);
        assert r == [rest[0]] + r';
        assert r[1..] == r';
      }
    }
  }

  /** Where the scan finds no match at the start, the replaced text has
      none there either. */
  lemma NoMatchKept(rest: string, before: string, key: string, line: string)
    requires IsLine(line, key) && '$' !in line && rest != [] && LineMatch(rest, key).None?
    ensures LineMatch(ReplaceFrom(rest, before, key, line), key).None?
  {
    var head := key + "::";
    var r := ReplaceFrom(rest, before, key, line);
    if head <= rest {
      LateBreakKept(rest, before, key, line, |head|);
    } else if |head| <= |rest| {
      FrontKept(rest, before, key, line, |head|);
      assert r[..|head|] == rest[..|head|];
    } else {
      LateBreakKept(rest, before, key, line, |rest|);
    }
  }

  /** A text with no line break from position `k <= |key| + 2` on has no
      match anywhere, and the replacement leaves it alone. */
  lemma {:induction false} LateBreakKept(rest: string, before: string, key: string, line: string, k: nat)
    requires k <= |key| + 2
    requires forall i :: k <= i < |rest| ==> rest[i] != '\n'
    ensures ReplaceFrom(rest, before, key, line) == rest
    decreases |rest|
  {
    if rest != [] {
      assert LineMatch(rest, key).None?;
      var k' := if k == 0 then 0 else k - 1;
      assert forall i :: k' <= i < |rest[1..]| ==> rest[1..][i] == rest[i + 1];
      LateBreakKept(rest[1..], before + [rest[0]], key, line, k');
      SplitAt(rest, 1);
      assert rest[..1] == [rest[0]];
    }
  }

  /** The replacement keeps the first `j <= |key| + 2` characters: a match
      starts with `key::`, and so does the line written over it. */
  lemma {:induction false} FrontKept(rest: string, before: string, key: string, line: string, j: nat)
    requires IsLine(line, key) && '$' !in line && j <= |key| + 2 && j <= |rest|
    ensures var r := ReplaceFrom(rest, before, key, line);
      j <= |r| && r[..j] == rest[..j]
    decreases |rest|
  {
    if rest != [] {
      var m := LineMatch(rest, key);
      if m.Some? {
        FrontKeptMatch(rest, before, key, line, j, m.value);
      } else if j > 0 {
        var r' := ReplaceFrom(rest[1..], before + [rest[0]], key, line);
        FrontKept(rest[1..], before + [rest[0]], key, line, j - 1);
        assert ReplaceFrom(rest, before, key, line) == [rest[0]] + r';
        FrontStep(rest, r', j);
      }
    }
  }

  lemma FrontStep(rest: string, r': string, j: nat)
    requires 0 < j <= |rest| && j - 1 <= |r'| && r'[..j - 1] == rest[1..][..j - 1]
    ensures j <= |[rest[0]] + r'| && ([rest[0]] + r')[..j] == rest[..j]
  {
    assert ([rest[0]] + r')[..j] == [rest[0]] + r'[..j - 1];
    assert rest[..j] == [rest[0]] + rest[1..][..j - 1];
  }

  /** `FrontKept` at a match: the line written over it starts the same. */
  lemma FrontKeptMatch(rest: string, before: string, key: string, line: string, j: nat, n: nat)
    requires IsLine(line, key) && '$' !in line && j <= |key| + 2 && j <= |rest|
    requires LineMatch(rest, key) == Some(n)
    ensures var r := ReplaceFrom(rest, before, key, line);
      j <= |r| && r[..j] == rest[..j]
  {
    var head := key + "::";
    ReplaceFromMatch(rest, before, n, key, line);
    SubstituteLiteral(line, before, rest[..n], rest[n..]);
    var r' := ReplaceFrom(rest[n..], before + rest[..n], key, line);
    assert rest[..j] == head[..j] == line[..j];
    assert (line + r')[..j] == line[..j];
  }

  /** The replacement keeps an occurrence of `key::`. */
  lemma {:induction false} ContainsKept(rest: string, before: string, key: string, line: string)
    requires IsLine(line, key) && '$' !in line && Contains(rest, key + "::")
    ensures Contains(ReplaceFrom(rest, before, key, line), key + "::")
    decreases |rest|
  {
    var head := key + "::";
    var r := ReplaceFrom(rest, before, key, line);
    var m := LineMatch(rest, key);
    if m.Some? {
      var n := m.value;
      ReplaceFromMatch(rest, before, n, key, line);
      SubstituteLiteral(line, before, rest[..n], rest[n..]);
      var r' := ReplaceFrom(rest[n..], before + rest[..n], key, line);
      assert (line + r')[..|head|] == line[..|head|];
    } else if head <= rest {
      FrontKept(rest, before, key, line, |head|);
    } else {
      var r' := ReplaceFrom(rest[1..], before + [rest[0]], key, line);
      ContainsKept(rest[1..], before + [rest[0]], key, line);
      assert r == [rest[0]] + r';
      assert r[1..] == r';
    }
  }

  /** A text without `key::` has no match. */
  lemma {:induction false} AbsentSettled(rest: string, key: string, line: string)
    requires !Contains(rest, key + "::")
    ensures LinesAre(rest, key, line)
    decreases |rest|
  {
    if rest != [] {
      assert LineMatch(rest, key).None?;
      AbsentSettled(rest[1..], key, line);
    }
  }

  /** The lines a record adds besides its tags. */
  function OtherLines(props: Properties): string {
    var rest := Without(props, "tags");
    Lines(rest, SortBy(Keys(rest), Rank))
  }

  /** Each appended line starts with a line break. */
  lemma {:induction false} LinesStart(plan: Properties, keys: seq<string>)
    ensures Lines(plan, keys) == "" || Lines(plan, keys)[0] == '\n'
    decreases |keys|
  {
    if keys != [] {
      LinesStart(plan, keys[1..]);
    }
  }

  /** A new page's properties block, written from an empty block with a
      tags list, is settled for the tags text it holds, unless another of
      its lines contains `tags::`. */
  lemma NewBlockSettles(stored: Value, props: Properties)
    requires Truthy(Get(props, "tags"))
    requires var v := TagsText(MergeTags(stored, Get(props, "tags"))); '$' !in v && '\n' !in v
    requires !Contains(OtherLines(props), "tags::")
    ensures TagsSettled(UpsertContent("", stored, props), TagsText(MergeTags(stored, Get(props, "tags"))))
  {
    var v := TagsText(MergeTags(stored, Get(props, "tags")));
    if v != "" {
      NewBlockShape(stored, props);
      LinesStart(Without(props, "tags"), SortBy(Keys(Without(props, "tags")), Rank));
      TagsThenLines(v, OtherLines(props));
    }
  }

  /** The new block: the appended tags line, then the other lines. */
  lemma NewBlockShape(stored: Value, props: Properties)
    requires Truthy(Get(props, "tags"))
    requires TagsText(MergeTags(stored, Get(props, "tags"))) != ""
    ensures UpsertContent("", stored, props)
         == "\n" + ("tags:: " + TagsText(MergeTags(stored, Get(props, "tags"))) + OtherLines(props))
  {
    var v := TagsText(MergeTags(stored, Get(props, "tags")));
    var l := OtherLines(props);
    assert UpsertContent("", stored, props) == ApplyProp("", "tags", Str(v)) + l by {
      UpsertContentShape("", stored, props);
    }
    assert ApplyProp("", "tags", Str(v)) == [] + ("\n" + "tags:: " + v) by {
      TailFacts(v);
      TagsAppendShape([], v);
    }
    EmptyThenTail(v, l);
  }

  lemma EmptyThenTail(v: string, l: string)
    ensures ([] + ("\n" + "tags:: " + v)) + l == "\n" + ("tags:: " + v + l)
  {
  }

  lemma TagsThenLines(v: string, l: string)
    requires '$' !in v && '\n' !in v && v != "" && (l == [] || l[0] == '\n') && !Contains(l, "tags::")
    ensures TagsSettled("\n" + ("tags:: " + v + l), v)
  {
    ContainsSuffix("\n", "tags:: " + v + l, "tags::");
    if l == [] {
      LastLineSettled(v);
    } else {
      LineBeforeLines(v, l);
    }
  }

  lemma LastLineSettled(v: string)
    requires '\n' !in v
    ensures LinesAre("\n" + ("tags:: " + v + []), "tags", "tags:: " + v + "\n")
  {
    var c := "\n" + ("tags:: " + v + []);
    TailFacts(v);
    assert c == "\n" + "tags:: " + v;
    AppendSettled([], c, "tags", "tags:: " + v + "\n");
    assert [] + c == c;
  }

  lemma LineBeforeLines(v: string, l: string)
    requires '$' !in v && '\n' !in v && l != [] && l[0] == '\n' && !Contains(l, "tags::")
    ensures LinesAre("\n" + ("tags:: " + v + l), "tags", "tags:: " + v + "\n")
  {
    var line := "tags:: " + v + "\n";
    TagsLine(v);
    TailFacts(v);
    AbsentSettled(l[1..], "tags", line);
    LineThenSettled(line, l[1..], "tags");
    Regroup("tags:: " + v, l);
    BreakThen(line + l[1..], "tags", line);
  }

  lemma Regroup(a: string, l: string)
    requires l != [] && l[0] == '\n'
    ensures a + l == (a + "\n") + l[1..]
  {
    assert l == "\n" + l[1..];
  }

  /** A line break in front of settled text keeps it settled. */
  lemma BreakThen(x: string, key: string, line: string)
    requires LinesAre(x, key, line) && '\n' !in key
    ensures LinesAre("\n" + x, key, line)
  {
    var head := key + "::";
    assert head[|key|] == ':';
    assert !(head <= "\n" + x) by {
      if |key| > 0 {
        assert head[0] == key[0];
      }
    }
    assert ("\n" + x)[1..] == x;
  }

  /** `p` inside the second part is inside the whole. */
  lemma {:induction false} ContainsSuffix(a: string, b: string, p: string)
    requires p <= b
    ensures Contains(a + b, p)
    decreases |a|
  {
    if a == [] {
      assert a + b == b;
    } else {
      assert (a + b)[1..] == a[1..] + b;
      ContainsSuffix(a[1..], b, p);
    }
  }

  /** Literal text in front of the template is copied through. */
  lemma {:induction false} SubstitutePrefix(pre: string, rest: string, before: string, m: string, after: string)
    requires '$' !in pre
    ensures Substitute(pre + rest, before, m, after) == pre + Substitute(rest, before, m, after)
    decreases |pre|
  {
    if pre == [] {
      assert pre + rest == rest;
    } else {
      assert (pre + rest)[1..] == pre[1..] + rest;
      assert (pre + rest)[0] == pre[0] != '$';
      SubstitutePrefix(pre[1..], rest, before, m, after);
    }
  }

  /** A block that is a single `key::` line matches as a whole. */
  lemma LineMatchWhole(line: string, key: string)
    requires key + "::" <= line && line[|line| - 1] == '\n'
    requires '\n' !in line[|key| + 2..|line| - 1]
    ensures LineMatch(line, key) == Some(|line|)
  {
    var tail := line[|key| + 2..];
    assert |key| + 2 < |line| by {
      assert line[|key| + 1] == ':';
    }
    assert tail[|tail| - 1] == '\n';
    var j := IndexOf(tail, '\n');
    assert j.Some?;
  }

  /** The template `pre$&post`, with literal `pre` and `post`, writes the
      match between them. */
  lemma SubstituteMatch(pre: string, post: string, before: string, m: string, after: string)
    requires '$' !in pre && '$' !in post
    ensures Substitute(pre + "$&" + post, before, m, after) == pre + m + post
  {
    SubstitutePrefix(pre, "$&" + post, before, m, after);
    assert pre + "$&" + post == pre + ("$&" + post);
    assert ("$&" + post)[2..] == post;
    SubstituteLiteral(post, before, m, after);
  }

  /** On a block that is a single `key::` line, a template `pre$&post`
      writes the old line between `pre` and `post`. */
  lemma ReplaceSingleLine(line: string, key: string, pre: string, post: string)
    requires key + "::" <= line && line[|line| - 1] == '\n'
    requires '\n' !in line[|key| + 2..|line| - 1]
    requires '$' !in pre && '$' !in post
    ensures ReplaceLines(line, key, pre + "$&" + post) == pre + line + post
  {
    var tpl := pre + "$&" + post;
    LineMatchWhole(line, key);
    ReplaceFromMatch(line, [], |line|, key, tpl);
    SubstituteMatch(pre, post, [], line[..|line|], line[|line|..]);
    assert line[..|line|] == line && line[|line|..] == [];
  }

  /** The `$&` of a stored tag is expanded: the tag text `#x, #a$&` written
      over `tags:: #x\n` gives `tags:: #x, #atags:: #x\n\n`. */
  lemma ReplaceExpandsMatch()
    ensures ReplaceLines("tags:: #x\n", "tags", "tags:: #x, #a$&\n") == "tags:: #x, #atags:: #x\n\n"
  {
    SampleLine();
    SampleTemplate();
    ReplaceSingleLine("tags:: #x\n", "tags", "tags:: #x, #a", "\n");
    SampleResult();
  }

  lemma SampleLine()
    ensures var line := "tags:: #x\n";
      "tags" + "::" <= line && line[|line| - 1] == '\n' && '\n' !in line[6..9]
  {
    var line := "tags:: #x\n";
    assert line[..6] == "tags::";
    assert line[6..9] == " #x";
  }

  lemma SampleTemplate()
    ensures "tags:: #x, #a" + "$&" + "\n" == "tags:: #x, #a$&\n"
    ensures '$' !in "tags:: #x, #a" && '$' !in "\n"
  {
  }

  lemma SampleResult()
    ensures "tags:: #x, #a" + "tags:: #x\n" + "\n" == "tags:: #x, #atags:: #x\n\n"
  {
  }

  /** One iteration of the loop: a falsy value is skipped; an upsert key
      whose `key::` already occurs has its lines rewritten; any other key is
      appended as a new `\nkey:: value` line, present or not. */
  function ApplyProp(content: string, key: string, v: Value): string {
    if !Truthy(v) then content
    else if Contains(content, key + "::") && key in UpsertKeys then
      ReplaceLines(content, key, key + ":: " + ValueText(v) + "\n")
    else content + "\n" + key + ":: " + ValueText(v)
  }

  /** The loop over `keys`, starting from `content`. */
  function Rewrite(content: string, plan: Properties, keys: seq<string>): string
    decreases |keys|
  {
    if keys == [] then content
    else Rewrite(ApplyProp(content, keys[0], Get(plan, keys[0])), plan, keys[1..])
  }

  /** The new content of the properties block. */
  function UpsertContent(content: string, stored: Value, props: Properties): string {
    var plan := Plan(stored, props);
    Rewrite(content, plan, SortedKeys(plan))
  }

  /** The source's loop; its result is `UpsertContent`. */
  method UpsertBlockProperties(content: string, stored: Value, properties: Properties) returns (r: string)
    ensures r == UpsertContent(content, stored, properties)
  {
    var tags := Get(properties, "tags");
    var newProps := Without(properties, "tags");
    if Truthy(tags) {
      var tagSet := MergeTags(stored, tags);
      newProps := Put(newProps, "tags", Str(TagsText(tagSet)));
    }
    r := content;
    var sortedProps := SortBy(Keys(newProps), Rank);
    assert newProps == Plan(stored, properties);
    assert sortedProps == SortedKeys(newProps);
    for i := 0 to |sortedProps|
      invariant Rewrite(r, newProps, sortedProps[i..]) == UpsertContent(content, stored, properties)
    {
      ghost var rest := sortedProps[i..];
      assert rest[1..] == sortedProps[i + 1..];
      var prop := sortedProps[i];
      var value := Get(newProps, prop);
      ghost var next := ApplyProp(r, prop, value);
      assert Rewrite(r, newProps, rest) == Rewrite(next, newProps, sortedProps[i + 1..]);
      if !Truthy(value) {
        continue;
      }
      var text := ValueText(value);
      if Contains(r, prop + "::") && prop in UpsertKeys {
        r := ReplaceLines(r, prop, prop + ":: " + text + "\n");
      } else {
        r := r + "\n" + prop + ":: " + text;
      }
      assert r == next;
    }
  }

  /** The lines appended for keys other than `tags`. */
  function Lines(plan: Properties, keys: seq<string>): string
    decreases |keys|
  {
    if keys == [] then ""
    else
      var v := Get(plan, keys[0]);
      (if Truthy(v) then "\n" + keys[0] + ":: " + ValueText(v) else "") + Lines(plan, keys[1..])
  }

  /** For keys other than `tags` the loop only appends. */
  lemma {:induction false} RewriteAppends(content: string, plan: Properties, keys: seq<string>)
    requires "tags" !in keys
    ensures Rewrite(content, plan, keys) == content + Lines(plan, keys)
    decreases |keys|
  {
    if keys != [] {
      var v := Get(plan, keys[0]);
      var line := if Truthy(v) then "\n" + keys[0] + ":: " + ValueText(v) else "";
      var c' := ApplyProp(content, keys[0], v);
      assert c' == content + line by {
        assert keys[0] !in UpsertKeys;
      }
      RewriteAppends(c', plan, keys[1..]);
      assert Rewrite(content, plan, keys) == Rewrite(c', plan, keys[1..]);
      assert Lines(plan, keys) == line + Lines(plan, keys[1..]);
      assert (content + line) + Lines(plan, keys[1..]) == content + (line + Lines(plan, keys[1..]));
    }
  }

  /** The keys the loop visits: `tags` first when it is set, then the other
      keys in stable rank order. */
  lemma SortedPlanKeys(stored: Value, props: Properties)
    ensures var tags := Get(props, "tags");
      SortedKeys(Plan(stored, props)) ==
        (if Truthy(tags) then ["tags"] else []) + SortBy(Keys(Without(props, "tags")), Rank)
  {
    var rest := Without(props, "tags");
    if Truthy(Get(props, "tags")) {
      var ks := Keys(rest);
      var plan := Put(rest, "tags", Str(TagsText(MergeTags(stored, Get(props, "tags")))));
      assert Keys(plan) == ks + ["tags"];
      SortLast(ks, "tags");
      AboveTags(ks);
      InsertFront(SortBy(ks, Rank), "tags", Rank);
    }
  }

  lemma SortLast(ks: seq<string>, k: string)
    ensures SortBy(ks + [k], Rank) == Insert(SortBy(ks, Rank), k, Rank)
  {
    assert (ks + [k])[..|ks|] == ks;
  }

  /** Every key but `tags` sorts after `tags`. */
  lemma AboveTags(ks: seq<string>)
    requires "tags" !in ks
    ensures forall y :: y in SortBy(ks, Rank) ==> Rank(y) > Rank("tags")
  {
    assert Rank("tags") == 0;
    forall y | y in SortBy(ks, Rank) ensures Rank(y) > 0 {
      assert y in multiset(SortBy(ks, Rank));
      RankAboveTags(y);
    }
  }

  lemma RankAboveTags(key: string)
    requires key != "tags"
    ensures Rank(key) >= 1
  {
    assert PropertyOrder[0] == "tags" && PropertyOrder[4] == "__other__";
  }

  /** Exact shape of the new content: the `tags` step (a replacement of the
      `tags::` lines, or one appended line), followed by one appended
      `\nkey:: value` line for every other truthy property, in rank order. */
  lemma UpsertContentShape(content: string, stored: Value, props: Properties)
    ensures var tags := Get(props, "tags");
      var rest := Without(props, "tags");
      var head := if Truthy(tags) then ApplyProp(content, "tags", Str(TagsText(MergeTags(stored, tags)))) else content;
      UpsertContent(content, stored, props) == head + Lines(rest, SortBy(Keys(rest), Rank))
  {
    var tags := Get(props, "tags");
    var rest := Without(props, "tags");
    var plan := Plan(stored, props);
    var ks := SortBy(Keys(rest), Rank);
    SortedPlanKeys(stored, props);
    assert "tags" !in ks by {
      assert multiset(ks) == multiset(Keys(rest));
      assert "tags" !in multiset(Keys(rest));
    }
    LinesSameValues(plan, rest, ks);
    if Truthy(tags) {
      var head := ApplyProp(content, "tags", Get(plan, "tags"));
      assert (["tags"] + ks)[1..] == ks;
      RewriteAppends(head, plan, ks);
    } else {
      RewriteAppends(content, plan, ks);
    }
  }

  lemma {:induction false} LinesSameValues(p: Properties, q: Properties, keys: seq<string>)
    requires forall k :: k in keys ==> Get(p, k) == Get(q, k)
    ensures Lines(p, keys) == Lines(q, keys)
    decreases |keys|
  {
    if keys != [] {
      LinesSameValues(p, q, keys[1..]);
    }
  }

  /** Without a `tags::` line the tags step only appends. */
  lemma TagsStepAppends(content: string, v: Value)
    requires !Contains(content, "tags::")
    ensures content <= ApplyProp(content, "tags", v)
  {
    if Truthy(v) {
      assert "tags" + "::" == "tags::";
      assert ApplyProp(content, "tags", v) == content + "\n" + "tags" + ":: " + ValueText(v);
    }
  }

  /** Unless existing `tags::` lines are rewritten, the old content is kept
      as a prefix of the new content. */
  lemma UpsertKeepsPrefix(content: string, stored: Value, props: Properties)
    requires !(Truthy(Get(props, "tags")) && Contains(content, "tags::"))
    ensures content <= UpsertContent(content, stored, props)
  {
    UpsertContentShape(content, stored, props);
    var tags := Get(props, "tags");
    var rest := Without(props, "tags");
    var lines := Lines(rest, SortBy(Keys(rest), Rank));
    var head := if Truthy(tags) then ApplyProp(content, "tags", Str(TagsText(MergeTags(stored, tags)))) else content;
    if Truthy(tags) {
      TagsStepAppends(content, Str(TagsText(MergeTags(stored, tags))));
    }
    assert content <= head;
    assert UpsertContent(content, stored, props) == head + lines;
  }

  /** A record without a truthy `tags` entry rewrites nothing: the content
      only grows by one line per truthy key. */
  lemma UpsertWithoutTags(content: string, stored: Value, props: Properties)
    requires !Truthy(Get(props, "tags"))
    ensures UpsertContent(content, stored, props)
      == content + Lines(Without(props, "tags"), SortBy(Keys(Without(props, "tags")), Rank))
  {
    UpsertContentShape(content, stored, props);
  }

  /** A record holding only a tags list rewrites the tags and touches
      nothing else: the whole change is the tags step. */
  lemma UpsertOnlyTags(content: string, stored: Value, ts: seq<string>)
    ensures UpsertContent(content, stored, [("tags", List(ts))])
      == ApplyProp(content, "tags", Str(TagsText(MergeTags(stored, List(ts)))))
  {
    var props := [("tags", List(ts))];
    UpsertContentShape(content, stored, props);
    assert Without(props, "tags") == [];
    assert Lines([], SortBy([], Rank)) == "";
  }
}
