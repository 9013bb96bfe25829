/** 128-bit identifiers, their canonical text, and the order that compares the text. */
module Uuids {
  import opened Text

  const UUID_BOUND: nat := 0x1_0000_0000_0000_0000_0000_0000_0000_0000

  type Uuid = n: nat | n < UUID_BOUND witness 0

  const NIL: Uuid := 0

  predicate IsHexChar(c: char) {
    '0' <= c <= '9' || 'a' <= c <= 'f'
  }

  function HexDigit(d: nat): char
    requires d < 16
  {
    if d < 10 then ('0' as int + d) as char else ('a' as int + d - 10) as char
  }

  /** The low `width` hexadecimal digits of `n`, most significant first. */
  function Hex(n: nat, width: nat): (s: string)
    ensures |s| == width
  {
    if width == 0 then "" else Hex(n / 16, width - 1) + [HexDigit(n % 16)]
  }

  /** Puts a dash after each leading group of digits. */
  function Dashed(digits: string, groups: seq<nat>): (s: string)
    decreases groups
  {
    if groups == [] || |digits| < groups[0] then digits
    else digits[..groups[0]] + ("-" + Dashed(digits[groups[0]..], groups[1..]))
  }

  /** The 8-4-4-4-12 form. */
  function UuidText(id: Uuid): string {
    Dashed(Hex(id, 32), [8, 4, 4, 4])
  }

  /** The order of identifiers; `CompareUuidIsTextual` shows it to be the order of their texts. */
  function CompareUuid(left: Uuid, right: Uuid): int {
    if left < right then -1 else if left > right then 1 else 0
  }

  lemma {:induction false} HexCharacters(n: nat, width: nat)
    ensures forall c :: c in Hex(n, width) ==> IsHexChar(c)
  {
    if width > 0 {
      HexCharacters(n / 16, width - 1);
    }
  }

  lemma {:induction false} DashedCharacters(digits: string, groups: seq<nat>)
    ensures forall c :: c in Dashed(digits, groups) ==> c in digits || c == '-'
    ensures |digits| <= |Dashed(digits, groups)| <= |digits| + |groups|
    decreases groups
  {
    if groups != [] && |digits| >= groups[0] {
      DashedCharacters(digits[groups[0]..], groups[1..]);
    }
  }

  lemma LowerFixes(s: string)
    requires forall c :: c in s ==> LowerChar(c) == c
    ensures ToLower(s) == s
  {
  }

  lemma DashedText(digits: string, groups: seq<nat>)
    requires digits != "" && forall c :: c in digits ==> IsHexChar(c)
    ensures var s := Dashed(digits, groups);
            Trimmed(s) && ToLower(s) == s && '|' !in s && s != ""
  {
    var s := Dashed(digits, groups);
    DashedCharacters(digits, groups);
    assert forall c :: c in s ==> LowerChar(c) == c && !IsSpace(c) && c != '|';
    LowerFixes(s);
    assert s[0] in s && s[|s| - 1] in s;
  }

  /** The text of an identifier is lower case, has no white space and no `|` in it, and is not blank. */
  lemma UuidTextCharacters(id: Uuid)
    ensures Trimmed(UuidText(id)) && ToLower(UuidText(id)) == UuidText(id)
    ensures '|' !in UuidText(id) && UuidText(id) != ""
  {
    HexCharacters(id, 32);
    DashedText(Hex(id, 32), [8, 4, 4, 4]);
  }

  function Power16(width: nat): (p: nat)
    ensures p > 0
  {
    if width == 0 then 1 else 16 * Power16(width - 1)
  }

  /** Digit strings of one width compare as the numbers they spell. */
  lemma {:induction false} HexOrder(a: nat, b: nat, width: nat)
    requires a < Power16(width) && b < Power16(width)
    ensures CompareText(Hex(a, width), Hex(b, width)) == if a < b then -1 else if a > b then 1 else 0
  {
    if width > 0 {
      HexOrder(a / 16, b / 16, width - 1);
      var x, y := [HexDigit(a % 16)], [HexDigit(b % 16)];
      CompareTextConcat(Hex(a / 16, width - 1), Hex(b / 16, width - 1), x, y);
      assert x[1..] == "" && y[1..] == "";
      assert CompareText(x, y) == if a % 16 < b % 16 then -1 else if a % 16 > b % 16 then 1 else 0;
      assert a == 16 * (a / 16) + a % 16 && b == 16 * (b / 16) + b % 16;
    }
  }

  /** Inserting the dashes does not change a comparison. */
  lemma {:induction false} DashesNeutral(g: string, h: string, groups: seq<nat>)
    requires |g| == |h|
    ensures CompareText(Dashed(g, groups), Dashed(h, groups)) == CompareText(g, h)
    decreases groups
  {
    if groups != [] && |g| >= groups[0] {
      var k := groups[0];
      var x, y := Dashed(g[k..], groups[1..]), Dashed(h[k..], groups[1..]);
      DashesNeutral(g[k..], h[k..], groups[1..]);
      CompareTextConcat(g[..k], h[..k], "-" + x, "-" + y);
      CompareTextConcat("-", "-", x, y);
      assert "-"[1..] == "";
      CompareTextConcat(g[..k], h[..k], g[k..], h[k..]);
      assert g == g[..k] + g[k..] && h == h[..k] + h[k..];
    }
  }

  lemma UuidBoundIsPower()
    ensures Power16(32) == UUID_BOUND
  {
    assert Power16(8) == 0x1_0000_0000;
    assert Power16(16) == 0x1_0000_0000 * Power16(8);
    assert Power16(24) == 0x1_0000_0000 * Power16(16);
  }

  lemma {:induction false} DashedLength(g: string, h: string, groups: seq<nat>)
    requires |g| == |h|
    ensures |Dashed(g, groups)| == |Dashed(h, groups)|
    decreases groups
  {
    if groups != [] && |g| >= groups[0] {
      DashedLength(g[groups[0]..], h[groups[0]..], groups[1..]);
    }
  }

  lemma DashedGroups(d: string)
    requires |d| == 32
    ensures Dashed(d, [8, 4, 4, 4])
         == d[..8] + "-" + d[8..12] + "-" + d[12..16] + "-" + d[16..20] + "-" + d[20..]
  {
    var e, f, g, h := d[8..], d[12..], d[16..], d[20..];
    assert e[4..] == f && f[4..] == g && g[4..] == h;
    assert e[..4] == d[8..12] && f[..4] == d[12..16] && g[..4] == d[16..20];
    assert [8, 4, 4, 4][1..] == [4, 4, 4] && [4, 4, 4][1..] == [4, 4] && [4, 4][1..] == [4];
    assert Dashed(g, [4]) == g[..4] + ("-" + h);
    assert Dashed(f, [4, 4]) == f[..4] + ("-" + Dashed(g, [4]));
    assert Dashed(e, [4, 4, 4]) == e[..4] + ("-" + Dashed(f, [4, 4]));
  }

  /** A text is 32 hexadecimal digits in groups of 8, 4, 4, 4 and 12, with dashes in between. */
  lemma UuidTextForm(id: Uuid) returns (d: string)
    ensures |d| == 32 && forall c :: c in d ==> IsHexChar(c)
    ensures UuidText(id) == d[..8] + "-" + d[8..12] + "-" + d[12..16] + "-" + d[16..20] + "-" + d[20..]
  {
    d := Hex(id, 32);
    HexCharacters(id, 32);
    DashedGroups(d);
  }

  /** All texts have one length. */
  lemma UuidTextLength(left: Uuid, right: Uuid)
    ensures |UuidText(left)| == |UuidText(right)|
  {
    DashedLength(Hex(left, 32), Hex(right, 32), [8, 4, 4, 4]);
  }

  /** Comparing identifiers by their canonical texts is comparing them as numbers. */
  lemma CompareUuidIsTextual(left: Uuid, right: Uuid)
    ensures CompareUuid(left, right) == CompareText(UuidText(left), UuidText(right))
  {
    UuidBoundIsPower();
    HexOrder(left, right, 32);
    DashesNeutral(Hex(left, 32), Hex(right, 32), [8, 4, 4, 4]);
  }

  /** Distinct identifiers have distinct texts. */
  lemma UuidTextInjective(left: Uuid, right: Uuid)
    ensures UuidText(left) == UuidText(right) <==> left == right
  {
    CompareUuidIsTextual(left, right);
    CompareTextAntisymmetric(UuidText(left), UuidText(right));
  }
}
