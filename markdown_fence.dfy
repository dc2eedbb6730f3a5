/**
 * `extract_markdown_content`: take the text between a "```markdown" fence tag
 * and the next "```", stripped. The function in src/utils.py and its identical
 * copy in src/converter/utils.py also accept "```\nmarkdown" as the opening
 * tag; the method of `OpenAiConverter` (src/converter/openai.py) does not.
 */
module MarkdownFence {
  import opened Strings

  const StartTag: string := "```markdown"
  const FallbackTag: string := "```\nmarkdown"
  const Fence: string := "```"

  /** `r` is `text[i..j]` for some `i <= j`. */
  predicate IsSlice(r: string, text: string) {
    exists i, j :: 0 <= i <= j <= |text| && text[i..j] == r
  }

  /**
   * What follows an opening tag that ends before index `from`: the text up to
   * the next "```", or up to the end when there is none, stripped.
   */
  function AfterTag(text: string, from: nat): string
    requires from <= |text|
  {
    var end := Find(text, Fence, from);
    if end != -1 then Strip(text[from..end]) else Strip(text[from..])
  }

  /** Where "```markdown" first occurs, or -1. */
  function StartTagAt(text: string): (r: int)
    ensures r == -1 || r + |StartTag| <= |text|
  {
    Find(text, StartTag, 0)
  }

  /** Where "```\nmarkdown" first occurs, or -1. */
  function FallbackTagAt(text: string): (r: int)
    ensures r == -1 || r + |FallbackTag| <= |text|
  {
    Find(text, FallbackTag, 0)
  }

  /** Where an opening tag is found: "```markdown" first, else "```\nmarkdown", else -1. */
  function TagStart(text: string): (r: int)
    ensures r == -1 || r + |StartTag| <= |text|
  {
    var first := StartTagAt(text);
    if first != -1 then first else FallbackTagAt(text)
  }

  /** `extract_markdown_content` of src/utils.py and src/converter/utils.py, as written. */
  function ExtractMarkdownContent(text: string): string {
    var start := TagStart(text);
    if start != -1 then AfterTag(text, start + |StartTag|) else Strip(text)
  }

  /** `OpenAiConverter.extract_markdown_content`: only "```markdown" opens a fence. */
  function ExtractTaggedOnly(text: string): string {
    var start := StartTagAt(text);
    if start != -1 then AfterTag(text, start + |StartTag|) else Strip(text)
  }

  /**
   * The corrected `extract_markdown_content`: the content starts right after
   * whichever tag matched, so the 12-character fallback tag is skipped whole.
   */
  function ExtractMarkdownContentIntended(text: string): string {
    var from := ContentStart(text);
    if from != -1 then AfterTag(text, from) else Strip(text)
  }

  /** Just past whichever opening tag matched first, or -1 when neither occurs. */
  function ContentStart(text: string): (r: int)
    ensures r <= |text|
  {
    var first := StartTagAt(text);
    if first != -1 then first + |StartTag|
    else
      var second := FallbackTagAt(text);
      if second != -1 then second + |FallbackTag| else -1
  }


  // ---------------------------------------------------------------------------
  // Search facts
  // ---------------------------------------------------------------------------

  /** `pat` occurs at `p` and nowhere in `[from, p)`: `find` from `from` returns `p`. */
  predicate FirstAt(text: string, pat: string, from: nat, p: nat) {
    from <= p && OccursAt(text, pat, p) && forall k :: from <= k < p ==> !OccursAt(text, pat, k)
  }

  predicate Absent(text: string, pat: string, from: nat) {
    forall k :: from <= k <= |text| ==> !OccursAt(text, pat, k)
  }

  lemma FindFirst(text: string, pat: string, from: nat, p: nat)
    requires FirstAt(text, pat, from, p)
    ensures Find(text, pat, from) == p
  {
  }

  lemma FindAbsent(text: string, pat: string, from: nat)
    requires Absent(text, pat, from)
    ensures Find(text, pat, from) == -1
  {
  }

  lemma StripIsSlice(s: string)
    ensures IsSlice(Strip(s), s)
  {
    StripSpec(s);
    var i := LeadingSpace(s);
    assert s[i..i + |Strip(s)|] == Strip(s);
  }

  lemma SliceOfSlice(r: string, s: string, text: string)
    requires IsSlice(r, s) && IsSlice(s, text)
    ensures IsSlice(r, text)
  {
    var i, j :| 0 <= i <= j <= |s| && s[i..j] == r;
    var a, b :| 0 <= a <= b <= |text| && text[a..b] == s;
    forall t | 0 <= t < |r|
      ensures text[a + i..a + j][t] == r[t]
    {
      assert r[t] == s[i + t] == text[a + i + t];
    }
    assert 0 <= a + i <= a + j <= |text| && text[a + i..a + j] == r;
  }

  /** What follows a tag is trimmed and is a piece of the text. */
  lemma AfterTagSlice(text: string, from: nat)
    requires from <= |text|
    ensures IsTrimmed(AfterTag(text, from)) && IsSlice(AfterTag(text, from), text)
  {
    var end := Find(text, Fence, from);
    var body := if end != -1 then text[from..end] else text[from..];
    if end != -1 {
      assert 0 <= from <= end <= |text| && text[from..end] == body;
    } else {
      assert 0 <= from <= |text| <= |text| && text[from..|text|] == body;
    }
    StripIsSlice(body);
    SliceOfSlice(Strip(body), body, text);
  }

  // ---------------------------------------------------------------------------
  // src/utils.py and src/converter/utils.py
  // ---------------------------------------------------------------------------

  /** With neither opening tag anywhere, the result is the whole text stripped. */
  lemma ExtractNoTag(text: string)
    requires Absent(text, StartTag, 0) && Absent(text, FallbackTag, 0)
    ensures ExtractMarkdownContent(text) == Strip(text)
  {
    FindAbsent(text, StartTag, 0);
    FindAbsent(text, FallbackTag, 0);
  }

  /** "```markdown" first at `p`, closing "```" first at `q` after the tag: the text between, stripped. */
  lemma ExtractClosed(text: string, p: nat, q: nat)
    requires FirstAt(text, StartTag, 0, p) && FirstAt(text, Fence, p + 11, q)
    ensures ExtractMarkdownContent(text) == Strip(text[p + 11..q])
  {
    FindFirst(text, StartTag, 0, p);
    FindFirst(text, Fence, p + 11, q);
  }

  /** "```markdown" first at `p` and no "```" after the tag: the rest of the text, stripped. */
  lemma ExtractUnclosed(text: string, p: nat)
    requires FirstAt(text, StartTag, 0, p) && Absent(text, Fence, p + 11)
    ensures ExtractMarkdownContent(text) == Strip(text[p + 11..])
  {
    FindFirst(text, StartTag, 0, p);
    FindAbsent(text, Fence, p + 11);
  }

  /**
   * "```markdown" takes precedence: wherever it occurs, the fallback tag is not
   * looked at, and the result is what the OpenAI converter's version gives.
   */
  lemma ExtractPrefersStartTag(text: string, k: nat)
    requires OccursAt(text, StartTag, k)
    ensures ExtractMarkdownContent(text) == ExtractTaggedOnly(text)
    ensures ExtractMarkdownContentIntended(text) == ExtractTaggedOnly(text)
  {
  }

  /** Only the fallback tag, first at `p`: the content is taken from 11 characters after it, as written. */
  lemma ExtractFallback(text: string, p: nat, q: nat)
    requires Absent(text, StartTag, 0) && FirstAt(text, FallbackTag, 0, p) && FirstAt(text, Fence, p + 11, q)
    ensures ExtractMarkdownContent(text) == Strip(text[p + 11..q])
  {
    FindAbsent(text, StartTag, 0);
    FindFirst(text, FallbackTag, 0, p);
    FindFirst(text, Fence, p + 11, q);
  }

  /** Only the fallback tag, first at `p`, and no "```" 11 characters after it: the rest of the text, stripped. */
  lemma ExtractFallbackUnclosed(text: string, p: nat)
    requires Absent(text, StartTag, 0) && FirstAt(text, FallbackTag, 0, p) && Absent(text, Fence, p + 11)
    ensures ExtractMarkdownContent(text) == Strip(text[p + 11..])
  {
    FindAbsent(text, StartTag, 0);
    FindFirst(text, FallbackTag, 0, p);
    FindAbsent(text, Fence, p + 11);
  }

  /** In every branch the result is trimmed and is a piece of the input. */
  lemma ExtractTrimmedSlice(text: string)
    ensures IsTrimmed(ExtractMarkdownContent(text)) && IsSlice(ExtractMarkdownContent(text), text)
  {
    var start := TagStart(text);
    if start != -1 {
      AfterTagSlice(text, start + |StartTag|);
    } else {
      StripIsSlice(text);
    }
  }

  /**
   * The fallback tag is 12 characters long but the offset is 11, so the
   * content keeps the final 'n' of "markdown".
   */
  lemma FallbackKeepsStrayN(text: string)
    requires text == FallbackExample
    ensures ExtractMarkdownContent(text) == "n\nHello"
  {
    ExampleHasNoStartTag();
    ExampleTag();
    ExampleFences();
    ExtractFallback(text, 0, 19);
    ExampleBody(text, 11, "", "n\nHello");
  }

  const FallbackExample: string := "```\nmarkdown\nHello\n```"

  /** "```markdown" does not occur in the example: every 11-character window holds a newline. */
  lemma ExampleHasNoStartTag()
    ensures Absent(FallbackExample, StartTag, 0)
  {
    var text := FallbackExample;
    assert '\n' !in StartTag;
    forall k | 0 <= k <= |text| ensures !OccursAt(text, StartTag, k) {
      if k <= 3 {
        assert '\n' in text[k..k + 11] by {
          assert text[k..k + 11][3 - k] == text[3];
        }
      } else if k + 11 <= |text| {
        assert '\n' in text[k..k + 11] by {
          assert text[k..k + 11][12 - k] == text[12];
        }
      }
    }
  }

  lemma ExampleTag()
    ensures FirstAt(FallbackExample, FallbackTag, 0, 0)
  {
    assert FallbackExample[0..12] == FallbackTag;
  }

  /** The example's text from `from` up to the closing fence, stripped. */
  lemma ExampleBody(text: string, from: nat, pre: string, body: string)
    requires text == FallbackExample
    requires (from, pre, body) == (11, "", "n\nHello") || (from, pre, body) == (12, "\n", "Hello")
    ensures from <= 19 && Strip(text[from..19]) == body
  {
    assert text[from..19] == pre + body + "\n";
    StripUnique(pre, body, "\n");
  }

  /** In the example, the first "```" after index 11 is the closing fence at 19. */
  lemma ExampleFences()
    ensures FirstAt(FallbackExample, Fence, 11, 19) && FirstAt(FallbackExample, Fence, 12, 19)
  {
    var text := FallbackExample;
    var mid := text[11..19];
    assert mid == "n\nHello\n";
    assert '`' !in mid;
    forall k | 11 <= k < 19 ensures !OccursAt(text, Fence, k) {
      assert text[k] == mid[k - 11];
      assert text[k..k + 3][0] == text[k];
    }
    assert text[19..22] == Fence;
  }

  // ---------------------------------------------------------------------------
  // The corrected version
  // ---------------------------------------------------------------------------

  /** Only the fallback tag, first at `p`: the content starts right after all 12 characters of it. */
  lemma IntendedFallback(text: string, p: nat, q: nat)
    requires Absent(text, StartTag, 0) && FirstAt(text, FallbackTag, 0, p) && FirstAt(text, Fence, p + 12, q)
    ensures ExtractMarkdownContentIntended(text) == Strip(text[p + 12..q])
  {
    FindAbsent(text, StartTag, 0);
    FindFirst(text, FallbackTag, 0, p);
    FindFirst(text, Fence, p + 12, q);
  }

  /** The corrected version returns exactly the fenced text for the fallback tag. */
  lemma IntendedFallbackExample(text: string)
    requires text == FallbackExample
    ensures ExtractMarkdownContentIntended(text) == "Hello"
  {
    ExampleHasNoStartTag();
    ExampleTag();
    ExampleFences();
    IntendedFallback(text, 0, 19);
    ExampleBody(text, 12, "\n", "Hello");
  }

  /** The corrected version also gives a trimmed piece of the input in every branch. */
  lemma IntendedTrimmedSlice(text: string)
    ensures IsTrimmed(ExtractMarkdownContentIntended(text)) && IsSlice(ExtractMarkdownContentIntended(text), text)
  {
    var from := ContentStart(text);
    if from != -1 {
      AfterTagSlice(text, from);
    } else {
      StripIsSlice(text);
    }
  }

  // ---------------------------------------------------------------------------
  // src/converter/openai.py
  // ---------------------------------------------------------------------------

  /** Without "```markdown" the OpenAI version strips the whole text, even when "```\nmarkdown" is there. */
  lemma TaggedOnlyNoTag(text: string)
    requires Absent(text, StartTag, 0)
    ensures ExtractTaggedOnly(text) == Strip(text)
  {
    FindAbsent(text, StartTag, 0);
  }

  lemma TaggedOnlyClosed(text: string, p: nat, q: nat)
    requires FirstAt(text, StartTag, 0, p) && FirstAt(text, Fence, p + 11, q)
    ensures ExtractTaggedOnly(text) == Strip(text[p + 11..q])
  {
    FindFirst(text, StartTag, 0, p);
    FindFirst(text, Fence, p + 11, q);
  }

  lemma TaggedOnlyUnclosed(text: string, p: nat)
    requires FirstAt(text, StartTag, 0, p) && Absent(text, Fence, p + 11)
    ensures ExtractTaggedOnly(text) == Strip(text[p + 11..])
  {
    FindFirst(text, StartTag, 0, p);
    FindAbsent(text, Fence, p + 11);
  }

  lemma TaggedOnlyTrimmedSlice(text: string)
    ensures IsTrimmed(ExtractTaggedOnly(text)) && IsSlice(ExtractTaggedOnly(text), text)
  {
    var start := StartTagAt(text);
    if start != -1 {
      AfterTagSlice(text, start + |StartTag|);
    } else {
      StripIsSlice(text);
    }
  }
}
