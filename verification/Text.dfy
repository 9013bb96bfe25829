/** The string operations the components share: trimming, case folding and lexicographic order. */
module Text {

  predicate IsSpace(c: char) {
    c in [' ', '\t', '\n', '\r', '\U{0B}', '\U{0C}']
  }

  function TrimLeft(s: string): string {
    if s != "" && IsSpace(s[0]) then TrimLeft(s[1..]) else s
  }

  function TrimRight(s: string): string {
    if s != "" && IsSpace(s[|s| - 1]) then TrimRight(s[..|s| - 1]) else s
  }

  function TrimSpace(s: string): string {
    TrimRight(TrimLeft(s))
  }

  /** No white space at either end. */
  ghost predicate Trimmed(s: string) {
    s == "" || (!IsSpace(s[0]) && !IsSpace(s[|s| - 1]))
  }

  function LowerChar(c: char): char {
    if 'A' <= c <= 'Z' then (c as int + 32) as char else c
  }

  function ToLower(s: string): (r: string)
    ensures |r| == |s|
    ensures forall i :: 0 <= i < |s| ==> r[i] == LowerChar(s[i])
  {
    seq(|s|, i requires 0 <= i < |s| => LowerChar(s[i]))
  }

  lemma {:induction false} TrimLeftDrops(s: string)
    ensures exists k: nat :: k <= |s| && TrimLeft(s) == s[k..]
                             && (forall i :: 0 <= i < k ==> IsSpace(s[i]))
    ensures TrimLeft(s) != "" ==> !IsSpace(TrimLeft(s)[0])
  {
    if s != "" && IsSpace(s[0]) {
      TrimLeftDrops(s[1..]);
      var k: nat :| k <= |s[1..]| && TrimLeft(s[1..]) == s[1..][k..]
                    && (forall i :: 0 <= i < k ==> IsSpace(s[1..][i]));
      assert s[1..][k..] == s[k + 1..];
      forall i | 0 <= i < k + 1
        ensures IsSpace(s[i])
      {
        assert i > 0 ==> s[i] == s[1..][i - 1];
      }
    } else {
      assert s == s[0..];
    }
  }

  lemma {:induction false} TrimRightDrops(s: string)
    ensures exists k: nat :: k <= |s| && TrimRight(s) == s[..k]
                             && (forall i :: k <= i < |s| ==> IsSpace(s[i]))
    ensures TrimRight(s) != "" ==> !IsSpace(TrimRight(s)[|TrimRight(s)| - 1])
  {
    if s != "" && IsSpace(s[|s| - 1]) {
      var front := s[..|s| - 1];
      TrimRightDrops(front);
      var k: nat :| k <= |front| && TrimRight(front) == front[..k]
                    && (forall i :: k <= i < |front| ==> IsSpace(front[i]));
      assert front[..k] == s[..k];
      forall i | k <= i < |s|
        ensures IsSpace(s[i])
      {
        assert i < |s| - 1 ==> s[i] == front[i];
      }
    } else {
      assert s == s[..|s|];
    }
  }

  /** Trimming removes white space at both ends and nothing else. */
  lemma TrimSpaceTrims(s: string)
    ensures Trimmed(TrimSpace(s))
    ensures |TrimSpace(s)| <= |s|
    ensures Trimmed(s) ==> TrimSpace(s) == s
  {
    TrimLeftDrops(s);
    TrimRightDrops(TrimLeft(s));
  }

  /** `s` without the white space at its ends: what is dropped is white space, and none is left at an end. */
  ghost predicate Core(s: string, core: string) {
    Trimmed(core)
    && exists a: nat, b: nat :: a <= b <= |s| && core == s[a..b]
                           && (forall i :: 0 <= i < a || b <= i < |s| ==> IsSpace(s[i]))
  }

  lemma TrimSpaceIsCore(s: string)
    ensures Core(s, TrimSpace(s))
    ensures TrimSpace(s) == "" <==> forall i :: 0 <= i < |s| ==> IsSpace(s[i])
  {
    TrimSpaceTrims(s);
    TrimLeftDrops(s);
    TrimRightDrops(TrimLeft(s));
    var a: nat :| a <= |s| && TrimLeft(s) == s[a..] && (forall i :: 0 <= i < a ==> IsSpace(s[i]));
    var k: nat :| k <= |s[a..]| && TrimRight(s[a..]) == s[a..][..k]
                  && (forall i :: k <= i < |s[a..]| ==> IsSpace(s[a..][i]));
    forall i | a + k <= i < |s|
      ensures IsSpace(s[i])
    {
      assert s[i] == s[a..][i - a];
    }
    assert s[a..][..k] == s[a..a + k];
    if TrimSpace(s) != "" {
      assert s[a] == TrimSpace(s)[0];
    }
  }

  lemma {:induction false} LowerTrimLeft(s: string)
    ensures ToLower(TrimLeft(s)) == TrimLeft(ToLower(s))
  {
    if s != "" && IsSpace(s[0]) {
      LowerTrimLeft(s[1..]);
      assert ToLower(s)[1..] == ToLower(s[1..]);
    }
  }

  lemma {:induction false} LowerTrimRight(s: string)
    ensures ToLower(TrimRight(s)) == TrimRight(ToLower(s))
  {
    if s != "" && IsSpace(s[|s| - 1]) {
      LowerTrimRight(s[..|s| - 1]);
      assert ToLower(s)[..|s| - 1] == ToLower(s[..|s| - 1]);
    }
  }

  /** Case folding and trimming commute. */
  lemma LowerTrimCommute(s: string)
    ensures ToLower(TrimSpace(s)) == TrimSpace(ToLower(s))
  {
    LowerTrimLeft(s);
    LowerTrimRight(TrimLeft(s));
  }

  /** Go's string comparison, as a sign. */
  function CompareText(a: string, b: string): int {
    if a == "" && b == "" then 0
    else if a == "" then -1
    else if b == "" then 1
    else if a[0] < b[0] then -1
    else if a[0] > b[0] then 1
    else CompareText(a[1..], b[1..])
  }

  /** String comparison is antisymmetric, and only equal strings tie. */
  lemma {:induction false} CompareTextAntisymmetric(a: string, b: string)
    ensures CompareText(a, b) == -CompareText(b, a)
    ensures CompareText(a, b) == 0 <==> a == b
  {
    if a != "" && b != "" && a[0] == b[0] {
      CompareTextAntisymmetric(a[1..], b[1..]);
      assert a == [a[0]] + a[1..] && b == [b[0]] + b[1..];
    }
  }

  lemma {:induction false} CompareTextTransitive(a: string, b: string, c: string)
    requires CompareText(a, b) <= 0 && CompareText(b, c) <= 0
    ensures CompareText(a, c) <= 0
  {
    if a != "" && b != "" && c != "" && a[0] == b[0] == c[0] {
      CompareTextTransitive(a[1..], b[1..], c[1..]);
    }
  }

  /** Equal-length first parts decide before second parts are looked at. */
  lemma {:induction false} CompareTextConcat(a: string, b: string, x: string, y: string)
    requires |a| == |b|
    ensures CompareText(a + x, b + y)
         == if CompareText(a, b) != 0 then CompareText(a, b) else CompareText(x, y)
  {
    if a == "" {
      assert a + x == x && b + y == y;
    } else {
      assert (a + x)[1..] == a[1..] + x && (b + y)[1..] == b[1..] + y;
      CompareTextConcat(a[1..], b[1..], x, y);
    }
  }
}
