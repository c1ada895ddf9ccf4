/** The identity hasher `hashCode` (src/utils.ts:142-153): a rolling
    `h * 31 + c` over the UTF-16 code units of the input, kept in signed
    32 bits, written out as the lowercase hexadecimal of `|h|`. */
module Hash {
  const TWO31: int := 0x8000_0000
  const TWO32: int := 0x1_0000_0000

  /** JavaScript's `ToInt32` (what `x | 0` and the operands of `<<` go
      through): the value congruent to `x` modulo 2^32 in [-2^31, 2^31). */
  function Int32(x: int): (r: int)
    ensures -TWO31 <= r < TWO31
    ensures (x - r) % TWO32 == 0
  {
    var m := x % TWO32;
    if m >= TWO31 then m - TWO32 else m
  }

  /** `ToInt32` only sees its argument modulo 2^32. */
  lemma Int32Congruent(x: int, y: int, k: int)
    requires x == y + k * TWO32
    ensures Int32(x) == Int32(y)
  {
    assert x % TWO32 == y % TWO32;
  }

  /** A UTF-16 code unit, what `charCodeAt` returns. */
  type CodeUnit = u: int | 0 <= u < 0x1_0000

  /** The UTF-16 code units of a string: one per character of the Basic
      Multilingual Plane, a surrogate pair for every other character. */
  function Utf16(s: string): (r: seq<CodeUnit>)
    ensures |r| >= |s|
    ensures |r| == 0 <==> s == []
  {
    if s == [] then []
    else
      var v := s[0] as int;
      (if v < 0x1_0000 then [v]
       else [0xD800 + (v - 0x1_0000) / 0x400, 0xDC00 + (v - 0x1_0000) % 0x400])
      + Utf16(s[1..])
  }

  /** One step of the loop in the source: `hash = (hash << 5) - hash + chr`
      followed by `hash |= 0`. */
  function Step(h: int, c: CodeUnit): int {
    Int32(Int32(h * 32) - h + c)
  }

  /** The shift-and-subtract step is the multiply-by-31-and-add step, kept in
      signed 32 bits. */
  lemma StepIsMulAdd(h: int, c: CodeUnit)
    requires -TWO31 <= h < TWO31
    ensures Step(h, c) == Int32(31 * h + c)
  {
    var s := Int32(h * 32);
    var k := (h * 32 - s) / TWO32;
    assert h * 32 - s == k * TWO32;
    Int32Congruent(31 * h + c, s - h + c, k);
  }

  /** The value of `hash` after the code units `u` have been folded in. */
  function Fold(u: seq<CodeUnit>): (h: int)
    ensures -TWO31 <= h < TWO31
  {
    if u == [] then 0 else Step(Fold(u[..|u| - 1]), u[|u| - 1])
  }

  /** Folding one more code unit is one wrapping `h * 31 + c` step. */
  lemma FoldSnoc(u: seq<CodeUnit>, c: CodeUnit)
    ensures Fold(u + [c]) == Int32(31 * Fold(u) + c)
  {
    assert (u + [c])[..|u|] == u;
    StepIsMulAdd(Fold(u), c);
  }

  const HexDigits: string := "0123456789abcdef"

  /** `n.toString(16)` for a non-negative integer. */
  function Hex(n: nat): (r: string)
    ensures r != []
    ensures forall i :: 0 <= i < |r| ==> r[i] in HexDigits
    ensures |r| > 1 ==> r[0] != '0'
  {
    if n < 16 then [HexDigits[n]] else Hex(n / 16) + [HexDigits[n % 16]]
  }

  function Abs(x: int): nat {
    if x < 0 then -x else x
  }

  /** What `hashCode(input)` returns. */
  function HashOf(input: string): string {
    Hex(Abs(Fold(Utf16(input))))
  }

  /** The source's `hashCode`, with its loop; its result is `HashOf`. */
  method HashCode(input: string) returns (r: string)
    ensures r == HashOf(input)
  {
    var units := Utf16(input);
    var hash := 0;
    if |units| == 0 {
      return Hex(hash);
    }
    var i := 0;
    while i < |units|
      invariant 0 <= i <= |units|
      invariant hash == Fold(units[..i])
    {
      var chr := units[i];
      assert units[..i + 1][..i] == units[..i];
      hash := Int32(Int32(hash * 32) - hash + chr);
      i := i + 1;
    }
    assert units[..i] == units;
    r := Hex(if hash < 0 then -hash else hash);
  }

  /** The digit a lowercase hexadecimal character stands for. */
  function HexValueOf(c: char): (d: nat)
    requires c in HexDigits
    ensures d < 16 && HexDigits[d] == c
  {
    if '0' <= c <= '9' then
      var d := (c as int - '0' as int) as nat;
      assert HexDigits[d] == c;
      d
    else
      var d := (c as int - 'a' as int + 10) as nat;
      assert HexDigits[d] == c;
      d
  }

  /** Reading a lowercase hexadecimal string. */
  function HexValue(s: string): nat
    requires forall i :: 0 <= i < |s| ==> s[i] in HexDigits
  {
    if s == [] then 0 else 16 * HexValue(s[..|s| - 1]) + HexValueOf(s[|s| - 1])
  }

  /** `Hex` is invertible: reading the digits back gives the number. */
  lemma {:induction false} HexRoundTrip(n: nat)
    ensures HexValue(Hex(n)) == n
  {
    var r := Hex(n);
    if n >= 16 {
      HexRoundTrip(n / 16);
      assert r[..|r| - 1] == Hex(n / 16);
      DigitRoundTrip(n % 16);
    } else {
      DigitRoundTrip(n);
    }
  }

  lemma DigitRoundTrip(d: nat)
    requires d < 16
    ensures HexValueOf(HexDigits[d]) == d
  {
    var c := HexDigits[d];
    if d < 10 {
      assert c as int == '0' as int + d;
    } else {
      assert c as int == 'a' as int + d - 10;
    }
  }

  function Pow16(k: nat): nat {
    if k == 0 then 1 else 16 * Pow16(k - 1)
  }

  lemma {:induction false} HexLength(n: nat, k: nat)
    requires n < Pow16(k)
    ensures |Hex(n)| <= if k == 0 then 1 else k
  {
    if n >= 16 {
      HexLength(n / 16, k - 1);
    }
  }

  /** The empty string hashes to `"0"`. */
  lemma HashEmpty()
    ensures HashOf("") == "0"
  {
  }

  /** A one-character example: `"a"` is code unit 0x61. */
  lemma HashOfA()
    ensures HashOf("a") == "61"
  {
    assert Utf16("a") == [0x61] by {
      assert 'a' as int == 0x61 && "a"[1..] == [];
    }
    var u: seq<CodeUnit> := [0x61];
    assert Fold(u) == 0x61 by {
      assert u[..0] == [];
      assert Int32(0) == 0 && Int32(0x61) == 0x61;
      assert Fold(u) == Step(0, 0x61);
    }
    assert Hex(0x61) == "61" by {
      assert Hex(6) == "6";
    }
  }

  /** Every hash is a non-empty run of at most eight lowercase hexadecimal
      digits without a leading zero, and it determines `|h|`. */
  lemma HashShape(input: string)
    ensures var r := HashOf(input);
      && 0 < |r| <= 8
      && (forall i :: 0 <= i < |r| ==> r[i] in HexDigits)
      && (|r| > 1 ==> r[0] != '0')
      && HexValue(r) == Abs(Fold(Utf16(input)))
  {
    var h := Fold(Utf16(input));
    assert Pow16(8) == TWO32;
    HexLength(Abs(h), 8);
    HexRoundTrip(Abs(h));
  }
}
