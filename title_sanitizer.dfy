/**
 * `sanitize_title` (src/chunker/utils.py): unescape HTML character references,
 * delete every '#', then strip surrounding whitespace.
 */
module TitleSanitizer {
  import opened Strings

  /**
   * `html.unescape`, a library call outside this model: every operation that
   * needs it takes it as a parameter.
   */
  type Unescaper = string -> string

  /** What `html.unescape` does to text without an '&': nothing. */
  ghost predicate KeepsPlainText(unescape: Unescaper) {
    forall s :: '&' !in s ==> unescape(s) == s
  }

  /** `html.unescape(heading).replace("#", "").strip()`. */
  function SanitizeTitle(unescape: Unescaper, heading: string): (title: string)
    ensures '#' !in title
    ensures IsTrimmed(title)
  {
    var unhashed := Replace(unescape(heading), "#", "");
    ReplaceDeletes(unescape(heading), '#');
    var title := Strip(unhashed);
    StripSpec(unhashed);
    assert unhashed == unhashed[..LeadingSpace(unhashed)] + title + unhashed[LeadingSpace(unhashed) + |title|..];
    assert multiset(title) <= multiset(unhashed);
    title
  }

  /**
   * For text without '&', the title is the heading with every '#' deleted,
   * wherever it stands, and the surrounding whitespace removed: the deleted
   * text and the padding around the title are the only differences.
   */
  lemma {:induction false} SanitizePlainText(unescape: Unescaper, heading: string)
    requires KeepsPlainText(unescape) && '&' !in heading
    ensures SanitizeTitle(unescape, heading) == Strip(Delete(heading, '#'))
    ensures var title := SanitizeTitle(unescape, heading);
      exists pre, post ::
        && AllSpace(pre) && AllSpace(post)
        && pre + title + post == Delete(heading, '#')
        && multiset(pre + title + post) == multiset(heading)['#' := 0]
  {
    assert unescape(heading) == heading;
    var unhashed := Replace(heading, "#", "");
    ReplaceDeletes(heading, '#');
    ReplaceIsDelete(heading, '#');
    var title := Strip(unhashed);
    StripSpec(unhashed);
    LeadingSpaceSpec(unhashed);
    assert title == SanitizeTitle(unescape, heading);
    var n := LeadingSpace(unhashed);
    var pre, post := unhashed[..n], unhashed[n + |title|..];
    assert pre + title + post == unhashed;
    assert AllSpace(pre) && AllSpace(post);
  }

  /** Sanitising twice gives what sanitising once gave, for a title without '&'. */
  lemma SanitizeIdempotent(unescape: Unescaper, heading: string)
    requires KeepsPlainText(unescape)
    requires '&' !in SanitizeTitle(unescape, heading)
    ensures SanitizeTitle(unescape, SanitizeTitle(unescape, heading)) == SanitizeTitle(unescape, heading)
  {
    var title := SanitizeTitle(unescape, heading);
    ReplaceAbsent(title, '#');
    StripTrimmed(title);
  }

  /** The documented example: `"## FAQ&#x27s"` becomes `"FAQ's"`. */
  lemma SanitizeFaqExample(unescape: Unescaper)
    requires unescape("## FAQ&#x27s") == "## FAQ's"
    ensures SanitizeTitle(unescape, "## FAQ&#x27s") == "FAQ's"
  {
    DeleteHashesFaq("## FAQ's");
    StripUnique(" ", "FAQ's", "");
    assert " " + "FAQ's" + "" == " FAQ's";
  }

  lemma DeleteHashesFaq(text: string)
    requires text == "## FAQ's"
    ensures Replace(text, "#", "") == " FAQ's"
  {
    assert text == "##" + " FAQ's";
    DeleteHashesBefore("##", " FAQ's");
  }

  /** Deleting '#' from hashes followed by text without one leaves that text. */
  lemma DeleteHashesBefore(hashes: string, rest: string)
    requires forall i :: 0 <= i < |hashes| ==> hashes[i] == '#'
    requires '#' !in rest
    ensures Replace(hashes + rest, "#", "") == rest
  {
    ReplaceCharConcat(hashes, rest, '#');
    DeleteAllHashes(hashes);
    ReplaceAbsent(rest, '#');
  }

  /** Deleting '#' from a string of hashes leaves nothing. */
  lemma {:induction false} DeleteAllHashes(hashes: string)
    requires forall i :: 0 <= i < |hashes| ==> hashes[i] == '#'
    ensures Replace(hashes, "#", "") == ""
    decreases |hashes|
  {
    if hashes != [] {
      assert hashes[..1] == "#";
      DeleteAllHashes(hashes[1..]);
    }
  }

  /** A '#' inside the title text is deleted too, not only the level markers. */
  lemma SanitizeInnerHash(unescape: Unescaper)
    requires KeepsPlainText(unescape)
    ensures SanitizeTitle(unescape, "# C# 9") == "C 9"
  {
    InnerHashAt(unescape, "# C# 9");
  }

  lemma InnerHashAt(unescape: Unescaper, text: string)
    requires KeepsPlainText(unescape) && text == "# C# 9"
    ensures SanitizeTitle(unescape, text) == "C 9"
  {
    assert '&' !in text;
    assert unescape(text) == text;
    DeleteHashesInExample(text);
    StripUnique(" ", "C 9", "");
    assert " " + "C 9" + "" == " C 9";
  }

  lemma DeleteHashesInExample(text: string)
    requires text == "# C# 9"
    ensures Replace(text, "#", "") == " C 9"
  {
    assert text == "#" + " C" + ("#" + " 9");
    DeleteHashesBefore("#", " C");
    DeleteHashesBefore("#", " 9");
    ReplaceCharConcat("#" + " C", "#" + " 9", '#');
  }
}
