/** The title normalizer `normalizeTitle` (src/utils.ts:131-140): four global
    replacements applied in turn, truncation to `maxLen`, and an optional
    ` (hash)` disambiguator. */
module Titles {
  import opened Types

  /** Every character of `s` replaced by what `f` gives for it: one global
      single-character regex replacement. */
  function FlatMap(s: string, f: char -> string): string {
    if s == [] then [] else f(s[0]) + FlatMap(s[1..], f)
  }

  lemma {:induction false} FlatMapAppend(a: string, b: string, f: char -> string)
    ensures FlatMap(a + b, f) == FlatMap(a, f) + FlatMap(b, f)
    decreases |a|
  {
    if a == [] {
      assert a + b == b;
    } else {
      assert (a + b)[1..] == a[1..] + b;
      FlatMapAppend(a[1..], b, f);
    }
  }

  /** `.replace(/\//g, '\\')` */
  function SlashPass(c: char): string {
    if c == '/' then "\\" else [c]
  }

  /** `.replace(/[:.]/g, '')` */
  function ColonDotPass(c: char): string {
    if c == ':' || c == '.' then "" else [c]
  }

  /** `.replace(/[^\x00-\x7F]/g, '')`: a character outside ASCII is one code
      unit above 0x7F, or two (a surrogate pair), and all of them go. */
  function AsciiPass(c: char): string {
    if c as int > 0x7F then "" else [c]
  }

  /** `.replace(/\n/g, ' ')` */
  function NewlinePass(c: char): string {
    if c == '\n' then " " else [c]
  }

  /** The title after the four replacements, before truncation. */
  function Stripped(title: string): string {
    FlatMap(FlatMap(FlatMap(FlatMap(title, SlashPass), ColonDotPass), AsciiPass), NewlinePass)
  }

  /** A character that may appear in a normalized title. */
  predicate SafeChar(c: char) {
    c != '/' && c != ':' && c != '.' && c != '\n' && c as int <= 0x7F
  }

  predicate Safe(s: string) {
    forall i :: 0 <= i < |s| ==> SafeChar(s[i])
  }

  /** The four passes as one character-by-character rule. */
  function TitleChar(c: char): (r: string)
    ensures Safe(r)
    ensures SafeChar(c) ==> r == [c]
  {
    if c == '/' then "\\"
    else if c == ':' || c == '.' || c as int > 0x7F then ""
    else if c == '\n' then " "
    else [c]
  }

  /** The chain of replacements in the source equals the one-pass rule. */
  lemma {:induction false} StrippedOnePass(title: string)
    ensures Stripped(title) == FlatMap(title, TitleChar)
    decreases |title|
  {
    if title != [] {
      var c, rest := title[0], title[1..];
      StrippedOnePass(rest);
      var p1 := FlatMap(rest, SlashPass);
      var p2 := FlatMap(p1, ColonDotPass);
      var p3 := FlatMap(p2, AsciiPass);
      FlatMapAppend(SlashPass(c), p1, ColonDotPass);
      FlatMapAppend(FlatMap(SlashPass(c), ColonDotPass), p2, AsciiPass);
      FlatMapAppend(FlatMap(FlatMap(SlashPass(c), ColonDotPass), AsciiPass), p3, NewlinePass);
    }
  }

  lemma {:induction false} FlatMapTitleCharSafe(s: string)
    ensures Safe(FlatMap(s, TitleChar))
    decreases |s|
  {
    if s != [] {
      FlatMapTitleCharSafe(s[1..]);
      var a, b := TitleChar(s[0]), FlatMap(s[1..], TitleChar);
      assert forall i :: 0 <= i < |a + b| ==> (a + b)[i] == if i < |a| then a[i] else b[i - |a|];
    }
  }

  lemma {:induction false} FlatMapTitleCharFixed(s: string)
    requires Safe(s)
    ensures FlatMap(s, TitleChar) == s
    decreases |s|
  {
    if s != [] {
      assert SafeChar(s[0]);
      FlatMapTitleCharFixed(s[1..]);
    }
  }

  /** What the replacements leave contains no `/`, `:`, `.`, newline or
      character above 0x7F. */
  lemma StrippedSafe(title: string)
    ensures Safe(Stripped(title))
  {
    StrippedOnePass(title);
    FlatMapTitleCharSafe(title);
  }

  /** Stripping an already stripped title changes nothing. */
  lemma StrippedIdempotent(title: string)
    ensures Stripped(Stripped(title)) == Stripped(title)
  {
    StrippedSafe(title);
    StrippedOnePass(Stripped(title));
    FlatMapTitleCharFixed(Stripped(title));
  }

  /** ` (hash)` for a truthy hash, nothing otherwise. */
  function HashSuffix(hash: Option<string>): string {
    if Present(hash) then " (" + hash.value + ")" else ""
  }

  function Min(a: nat, b: nat): nat {
    if a < b then a else b
  }

  /** `normalizeTitle(title, maxLen, hash)`; `slice` counts UTF-16 code
      units, and after the replacements every character is a single one. */
  function NormalizeTitle(title: string, maxLen: nat, hash: Option<string>): string {
    var t := Stripped(title);
    t[..Min(|t|, maxLen)] + HashSuffix(hash)
  }

  /** The title part is the first `min(len, maxLen)` characters of the
      stripped title and holds no unsafe character; a truthy hash is appended
      as ` (hash)`, and without one nothing is appended. */
  lemma NormalizeTitleShape(title: string, maxLen: nat, hash: Option<string>)
    ensures var r := NormalizeTitle(title, maxLen, hash);
      var n := Min(|Stripped(title)|, maxLen);
      && |r| == n + |HashSuffix(hash)|
      && r[..n] == Stripped(title)[..n]
      && Safe(r[..n])
      && (Present(hash) ==> r[n..] == " (" + hash.value + ")")
      && (!Present(hash) ==> |r| == n && |r| <= maxLen)
  {
    StrippedSafe(title);
    var t := Stripped(title);
    var n := Min(|t|, maxLen);
    assert (t[..n] + HashSuffix(hash))[..n] == t[..n];
  }
}
