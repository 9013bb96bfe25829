/** Rendering context sections within a token budget of four characters a token. */
module TokenBudget {
  import opened Text

  const CHARS_PER_TOKEN := 4
  const SEPARATOR := "\n\n"

  datatype Rendering = Rendering(markdown: string, tokenEstimate: int, truncated: bool)

  function JoinSections(sections: seq<string>): string {
    if sections == [] then ""
    else if |sections| == 1 then sections[0]
    else JoinSections(sections[..|sections| - 1]) + SEPARATOR + sections[|sections| - 1]
  }

  function WithoutBlank(sections: seq<string>): seq<string> {
    if sections == [] then []
    else
      var n := |sections| - 1;
      WithoutBlank(sections[..n]) + if TrimSpace(sections[n]) == "" then [] else [TrimSpace(sections[n])]
  }

  method ContextSectionsWithoutEmptyValues(sections: seq<string>) returns (filtered: seq<string>)
    ensures filtered == WithoutBlank(sections)
  {
    filtered := [];
    for i := 0 to |sections|
      invariant filtered == WithoutBlank(sections[..i])
    {
      assert sections[..i + 1][..i] == sections[..i];
      var trimmed := TrimSpace(sections[i]);
      if trimmed == "" {
        continue;
      }
      filtered := filtered + [trimmed];
    }
    assert sections[..|sections|] == sections;
  }

  function TrimToBudget(text: string, maxChars: nat): (trimmed: string)
    ensures |trimmed| <= maxChars
  {
    if |text| <= maxChars then text
    else if maxChars <= 3 then text[..maxChars]
    else
      TrimSpaceTrims(text[..maxChars - 3]);
      TrimSpace(text[..maxChars - 3]) + "..."
  }

  function EstimateTokens(text: string): int {
    var trimmed := TrimSpace(text);
    if trimmed == "" then 0 else (|trimmed| + CHARS_PER_TOKEN - 1) / CHARS_PER_TOKEN
  }

  lemma {:induction false} JoinLength(sections: seq<string>)
    ensures sections != [] ==> |JoinSections(sections)| >= |sections[|sections| - 1]|
    ensures forall k :: 0 <= k <= |sections| ==> |JoinSections(sections[..k])| <= |JoinSections(sections)|
  {
    if |sections| <= 1 {
      assert forall k :: 0 <= k <= |sections| ==> sections[..k] == [] || sections[..k] == sections;
    } else {
      var n := |sections| - 1;
      JoinLength(sections[..n]);
      forall k | 0 <= k <= |sections|
        ensures |JoinSections(sections[..k])| <= |JoinSections(sections)|
      {
        assert k <= n ==> sections[..n][..k] == sections[..k];
        assert k == |sections| ==> sections[..k] == sections;
      }
    }
  }

  /** A join splits at any place, with the separator in between, down to the single sections. */
  lemma {:induction false} JoinSplits(a: seq<string>, b: seq<string>)
    requires a != [] && b != []
    ensures JoinSections(a + b) == JoinSections(a) + "\n\n" + JoinSections(b)
    ensures (|a| == 1 ==> JoinSections(a) == a[0]) && (|b| == 1 ==> JoinSections(b) == b[0])
  {
    var n := |b| - 1;
    assert (a + b)[..|a + b| - 1] == a + b[..n];
    if n == 0 {
      assert a + b[..n] == a;
    } else {
      JoinSplits(a, b[..n]);
    }
  }

  /**
   * A section that fits is left alone. Of one that does not three characters give way to an ellipsis, and white space
   * to nothing, unless there is no room for more than three.
   */
  lemma TrimmedToBudget(text: string, maxChars: nat)
    ensures if |text| <= maxChars then TrimToBudget(text, maxChars) == text
            else if maxChars <= 3 then TrimToBudget(text, maxChars) == text[..maxChars]
            else
              var left, cut := TrimToBudget(text, maxChars), text[..maxChars - 3];
              |left| >= 3 && Core(cut, left[..|left| - 3]) && left[|left| - 3..] == "..."
  {
    if |text| > maxChars > 3 {
      TrimSpaceIsCore(text[..maxChars - 3]);
    }
  }

  /** The estimate is the least number of tokens, at four characters each, that cover the text without outer space. */
  lemma EstimateIsLeast(text: string)
    ensures var length, tokens := |TrimSpace(text)|, EstimateTokens(text);
            0 <= tokens && 4 * (tokens - 1) < length <= 4 * tokens
  {
  }

  /** The sections of two lists are filtered one list after the other. */
  lemma {:induction false} WithoutBlankAppends(a: seq<string>, b: seq<string>)
    ensures WithoutBlank(a + b) == WithoutBlank(a) + WithoutBlank(b)
  {
    if b == [] {
      assert a + b == a;
    } else {
      WithoutBlankAppends(a, b[..|b| - 1]);
      assert (a + b)[..|a + b| - 1] == a + b[..|b| - 1];
    }
  }

  /** A section of white space is dropped; any other stays, without its outer space. */
  lemma SectionStaysIff(section: string)
    ensures var kept := WithoutBlank([section]);
            if forall i :: 0 <= i < |section| ==> IsSpace(section[i]) then kept == []
            else |kept| == 1 && Core(section, kept[0])
  {
    assert [section][..0] == [];
    TrimSpaceIsCore(section);
  }

  /** The rendering of the longest prefix of sections that fits, or of a trimmed first section when none does. */
  ghost predicate LongestPrefix(sections: seq<string>, maxChars: nat, text: string) {
    exists k :: 0 <= k <= |sections|
                && |JoinSections(sections[..k])| <= maxChars
                && (forall j :: k < j <= |sections| ==> |JoinSections(sections[..j])| > maxChars)
                && text == if k == 0 && sections != [] then TrimToBudget(sections[0], maxChars)
                           else JoinSections(sections[..k])
  }

  lemma PrefixIsLongest(sections: seq<string>, maxChars: nat, k: nat, text: string)
    requires k <= |sections| && |JoinSections(sections[..k])| <= maxChars
    requires k < |sections| ==> |JoinSections(sections[..k + 1])| > maxChars
    requires text == if k == 0 && sections != [] then TrimToBudget(sections[0], maxChars) else JoinSections(sections[..k])
    ensures LongestPrefix(sections, maxChars, text)
  {
    forall j | k < j <= |sections|
      ensures |JoinSections(sections[..j])| > maxChars
    {
      JoinLength(sections[..j]);
      assert sections[..j][..k + 1] == sections[..k + 1];
    }
  }

  /** Sections are taken while they fit; the flag says whether the whole join did not. */
  method JoinSectionsWithinCharBudget(sections: seq<string>, maxChars: int) returns (text: string, truncated: bool)
    ensures |text| <= if maxChars > 0 then maxChars else 0
    ensures truncated <==> if maxChars > 0 then |JoinSections(sections)| > maxChars else sections != []
    ensures maxChars > 0 ==> LongestPrefix(sections, maxChars, text)
  {
    if maxChars <= 0 {
      return "", |sections| > 0;
    }
    var selected: seq<string> := [];
    var usedChars := 0;
    for i := 0 to |sections|
      invariant selected == sections[..i]
      invariant usedChars == |JoinSections(selected)| && usedChars <= maxChars
    {
      var separatorLength := if |selected| > 0 then 2 else 0;
      var nextLength := usedChars + separatorLength + |sections[i]|;
      assert sections[..i + 1][..i] == sections[..i];
      assert nextLength == |JoinSections(sections[..i + 1])|;
      if nextLength <= maxChars {
        selected := selected + [sections[i]];
        usedChars := nextLength;
        continue;
      }
      if |selected| == 0 {
        selected := selected + [TrimToBudget(sections[i], maxChars)];
        assert JoinSections(selected) == TrimToBudget(sections[0], maxChars);
      }
      PrefixIsLongest(sections, maxChars, i, JoinSections(selected));
      JoinLength(sections);
      return JoinSections(selected), true;
    }
    assert sections[..|sections|] == sections;
    PrefixIsLongest(sections, maxChars, |sections|, JoinSections(selected));
    return JoinSections(selected), false;
  }

  lemma {:induction false} WithoutBlankNonEmpty(sections: seq<string>)
    ensures forall i :: 0 <= i < |WithoutBlank(sections)| ==> WithoutBlank(sections)[i] != ""
  {
    if sections != [] {
      WithoutBlankNonEmpty(sections[..|sections| - 1]);
    }
  }

  lemma EstimateWithinBudget(text: string, tokenBudget: int)
    requires |text| <= if tokenBudget > 0 then tokenBudget * CHARS_PER_TOKEN else 0
    ensures EstimateTokens(text) <= if tokenBudget > 0 then tokenBudget else 0
  {
    TrimSpaceTrims(text);
  }

  /** For any sections and any budget the rendering keeps to the budget and says truly whether it was cut. */
  method BuildBudgetedContextMarkdown(sections: seq<string>, tokenBudget: int) returns (r: Rendering)
    ensures |r.markdown| <= if tokenBudget > 0 then tokenBudget * CHARS_PER_TOKEN else 0
    ensures r.tokenEstimate == EstimateTokens(r.markdown) <= if tokenBudget > 0 then tokenBudget else 0
    ensures r.truncated <==>
            WithoutBlank(sections) != [] && |JoinSections(WithoutBlank(sections))| > tokenBudget * CHARS_PER_TOKEN
    ensures !r.truncated ==> r.markdown == JoinSections(WithoutBlank(sections))
    ensures tokenBudget > 0 ==> LongestPrefix(WithoutBlank(sections), tokenBudget * CHARS_PER_TOKEN, r.markdown)
  {
    var filtered := ContextSectionsWithoutEmptyValues(sections);
    WithoutBlankNonEmpty(sections);
    if |filtered| == 0 {
      if tokenBudget > 0 {
        PrefixIsLongest(filtered, tokenBudget * CHARS_PER_TOKEN, 0, "");
      }
      return Rendering("", 0, false);
    }
    JoinLength(filtered);
    var markdown, truncated := JoinSectionsWithinCharBudget(filtered, tokenBudget * CHARS_PER_TOKEN);
    EstimateWithinBudget(markdown, tokenBudget);
    r := Rendering(markdown, EstimateTokens(markdown), truncated);
    assert filtered[..|filtered|] == filtered;
  }
}
