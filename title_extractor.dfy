/**
 * `_maybe_extract_title_url_from_heading` (src/chunker/markdown_section_chunker.py):
 * a rendered heading whose text is a markdown link `[title](url)` yields the
 * link text as title and the link target as url; any other heading yields the
 * sanitised heading as title and no url. The three regular expressions of the
 * source are written out as string functions, each with a lemma that ties it
 * to what the expression matches.
 */
module TitleExtractor {
  import opened Optional
  import opened Strings
  import opened TitleSanitizer

  /** Number of leading '#' characters. */
  function HashRun(s: string): (n: nat)
    ensures n <= |s|
  {
    if s == [] || s[0] != '#' then 0 else 1 + HashRun(s[1..])
  }

  /** The run is all hashes and ends at a character that is not one. */
  lemma {:induction false} HashRunSpec(s: string)
    ensures forall i :: 0 <= i < HashRun(s) ==> s[i] == '#'
    ensures HashRun(s) < |s| ==> s[HashRun(s)] != '#'
  {
    if s != [] && s[0] == '#' {
      HashRunSpec(s[1..]);
      forall i | 1 <= i < HashRun(s) ensures s[i] == '#' {
        assert s[i] == s[1..][i - 1];
      }
    }
  }

  /**
   * `re.match(r"^\s*#*\s*\[", s)`, evaluated greedily: skip whitespace, then
   * hash marks, then whitespace, and look for '['.
   */
  predicate OpensLink(s: string) {
    var k := SpaceAfterHashes(s);
    k < |s| && s[k] == '['
  }

  /** Where the greedy reading's leading whitespace ends. */
  function HashesStart(s: string): nat {
    LeadingSpace(s)
  }

  /** Where the greedy reading's hash marks end. */
  function HashesEnd(s: string): (j: nat)
    ensures HashesStart(s) <= j <= |s|
  {
    HashesStart(s) + HashRun(s[HashesStart(s)..])
  }

  /** Where the greedy reading's second whitespace run ends. */
  function SpaceAfterHashes(s: string): (k: nat)
    ensures HashesEnd(s) <= k <= |s|
  {
    HashesEnd(s) + LeadingSpace(s[HashesEnd(s)..])
  }

  /** One way for `^\s*#*\s*\[` to match: whitespace up to `i`, hashes up to `j`, whitespace up to `k`, '[' at `k`. */
  predicate OpensLinkWith(s: string, i: int, j: int, k: int) {
    && 0 <= i <= j <= k < |s|
    && AllSpace(s[..i])
    && (forall x :: i <= x < j ==> s[x] == '#')
    && AllSpace(s[i..k][j - i..])
    && s[k] == '['
  }

  lemma HashRunAt(s: string, n: nat)
    requires n < |s| && s[n] != '#'
    requires forall x :: 0 <= x < n ==> s[x] == '#'
    ensures HashRun(s) == n
    decreases n
  {
    if n > 0 {
      assert forall x :: 0 <= x < n - 1 ==> s[1..][x] == s[x + 1];
      HashRunAt(s[1..], n - 1);
    }
  }

  /** The greedy reading agrees with the backtracking regular expression. */
  lemma OpensLinkIff(s: string)
    ensures OpensLink(s) <==> exists i, j, k :: OpensLinkWith(s, i, j, k)
  {
    if OpensLink(s) {
      GreedyOpensLink(s);
    }
    if i, j, k :| OpensLinkWith(s, i, j, k) {
      BacktrackedOpensLink(s, i, j, k);
    }
  }

  lemma GreedyOpensLink(s: string)
    requires OpensLink(s)
    ensures OpensLinkWith(s, HashesStart(s), HashesEnd(s), SpaceAfterHashes(s))
  {
    var i, j, k := HashesStart(s), HashesEnd(s), SpaceAfterHashes(s);
    assert AllSpace(s[..i]) by {
      LeadingSpaceSpec(s);
    }
    assert forall x :: i <= x < j ==> s[x] == '#' by {
      HashesFrom(s, i, j - i);
    }
    assert AllSpace(s[i..k][j - i..]) by {
      LeadingSpaceSpec(s[j..]);
      SliceShift(s, i, j, k);
    }
  }

  lemma SliceShift<T>(s: seq<T>, i: nat, j: nat, k: nat)
    requires i <= j <= k <= |s|
    ensures s[i..k][j - i..] == s[j..][..k - j]
  {
  }

  /** The hashes counted after position `i` are hashes of `s`. */
  lemma HashesFrom(s: string, i: nat, n: nat)
    requires i <= |s| && n == HashRun(s[i..])
    ensures forall x :: i <= x < i + n ==> s[x] == '#'
  {
    HashRunSpec(s[i..]);
    forall x | i <= x < i + n
      ensures s[x] == '#'
    {
      assert s[x] == s[i..][x - i];
    }
  }

  lemma BacktrackedOpensLink(s: string, i: int, j: int, k: int)
    requires OpensLinkWith(s, i, j, k)
    ensures OpensLink(s)
  {
    if i < j {
      BacktrackedWithHashes(s, i, j, k);
    } else {
      BacktrackedWithoutHashes(s, i, k);
    }
  }

  /** Some hashes: the greedy reading stops its whitespace at the first '#', and so on. */
  lemma BacktrackedWithHashes(s: string, i: int, j: int, k: int)
    requires OpensLinkWith(s, i, j, k) && i < j
    ensures OpensLink(s)
  {
    SpaceEndsAtHash(s, i, j, k);
    HashesEndAt(s, i, j, k);
    SpaceEndsAtBracket(s, i, j, k);
  }

  lemma SpaceEndsAtHash(s: string, i: int, j: int, k: int)
    requires OpensLinkWith(s, i, j, k) && i < j
    ensures HashesStart(s) == i
  {
    assert s[i] == '#';
    assert !IsSpace('#');
    LeadingSpaceAt(s, i);
  }

  lemma HashesEndAt(s: string, i: int, j: int, k: int)
    requires OpensLinkWith(s, i, j, k) && HashesStart(s) == i
    ensures HashesEnd(s) == j
  {
    var t := s[i..];
    assert t[j - i] == s[j];
    assert s[j] != '#' by {
      if j < k {
        assert s[j] == s[i..k][j - i..][0];
      }
    }
    forall x | 0 <= x < j - i
      ensures t[x] == '#'
    {
      assert t[x] == s[i + x];
    }
    HashRunAt(t, j - i);
  }

  lemma SpaceEndsAtBracket(s: string, i: int, j: int, k: int)
    requires OpensLinkWith(s, i, j, k) && HashesEnd(s) == j
    ensures SpaceAfterHashes(s) == k && s[k] == '['
  {
    var t := s[j..];
    SliceShift(s, i, j, k);
    assert t[k - j] == '[';
    assert !IsSpace('[');
    LeadingSpaceAt(t, k - j);
  }

  /** No hashes: all the whitespace up to the '[' is leading whitespace. */
  lemma BacktrackedWithoutHashes(s: string, i: int, k: int)
    requires OpensLinkWith(s, i, i, k)
    ensures OpensLink(s)
  {
    assert !IsSpace('[');
    var gap := s[i..k][0..];
    assert gap == s[i..k];
    assert s[..k] == s[..i] + gap;
    AllSpaceAppend(s[..i], gap);
    LeadingSpaceAt(s, k);
    assert s[k..][0] == '[';
    HashRunAt(s[k..], 0);
    assert s[k..][..0] == [];
    LeadingSpaceAt(s[k..], 0);
  }

  /**
   * `re.search(r"\)\s*$", s)`: the text ends in ')' followed only by whitespace
   * (`$` may also match before a final newline, which is whitespace anyway).
   */
  predicate ClosesLink(s: string) {
    var e := |s| - TrailingSpace(s);
    e > 0 && s[e - 1] == ')'
  }

  /** One way for `\)\s*$` to match: ')' at `p`, whitespace after it. */
  predicate ClosesLinkAt(s: string, p: int) {
    0 <= p < |s| && s[p] == ')' && AllSpace(s[p + 1..])
  }

  lemma ClosesLinkIff(s: string)
    ensures ClosesLink(s) <==> exists p :: ClosesLinkAt(s, p)
  {
    var t := TrailingSpace(s);
    TrailingSpaceSpec(s);
    if ClosesLink(s) {
      assert s[|s| - t - 1 + 1..] == s[|s| - t..];
      assert ClosesLinkAt(s, |s| - t - 1);
    }
    if p :| ClosesLinkAt(s, p) {
      assert s[|s| - (|s| - p - 1)..] == s[p + 1..];
      TrailingSpaceAt(s, |s| - p - 1);
    }
  }

  /** `is_heading_a_link`: both expressions match. */
  predicate IsHeadingALink(s: string) {
    OpensLink(s) && ClosesLink(s)
  }

  predicate NoNewline(s: string, from: int, to: int)
    requires 0 <= from && to <= |s|
  {
    forall x :: from <= x < to ==> s[x] != '\n'
  }

  /**
   * A match of `\[(.*?)\]\((.*?)\)`: '[' at `i`, ']' at `j`, '(' at `j + 1`,
   * ')' at `k`, and no newline inside either group (`.` does not match one).
   */
  predicate LinkMatch(s: string, i: int, j: int, k: int) {
    && 0 <= i < j && j + 1 < k < |s|
    && s[i] == '[' && s[j] == ']' && s[j + 1] == '(' && s[k] == ')'
    && NoNewline(s, i + 1, j) && NoNewline(s, j + 2, k)
  }

  /** The lazy second group: the first ')' at or after `k`, unless a newline comes first. */
  function UrlEnd(s: string, k: nat): (r: Option<nat>)
    ensures r.Some? ==> k <= r.value < |s| && s[r.value] == ')' && NoNewline(s, k, r.value)
    ensures r.Some? ==> forall x :: k <= x < r.value ==> s[x] != ')'
    ensures r.None? ==> forall x :: k <= x < |s| && s[x] == ')' ==> !NoNewline(s, k, x)
    decreases |s| - k
  {
    if k >= |s| || s[k] == '\n' then None
    else if s[k] == ')' then Some(k)
    else UrlEnd(s, k + 1)
  }

  /** `]` at `j` followed by `(` and a closing ')' on the same line. */
  predicate ClosesText(s: string, j: int) {
    0 <= j && j + 1 < |s| && s[j] == ']' && s[j + 1] == '(' && UrlEnd(s, j + 2).Some?
  }

  /** The lazy first group: the first `j` at or after `from` that closes the text, unless a newline comes first. */
  function TextEnd(s: string, from: nat): (r: Option<nat>)
    ensures r.Some? ==> from <= r.value && ClosesText(s, r.value) && NoNewline(s, from, r.value)
    ensures r.Some? ==> forall x :: from <= x < r.value ==> !ClosesText(s, x)
    ensures r.None? ==> forall x :: from <= x < |s| && ClosesText(s, x) ==> !NoNewline(s, from, x)
    decreases |s| - from
  {
    if from >= |s| || s[from] == '\n' then None
    else if ClosesText(s, from) then Some(from)
    else TextEnd(s, from + 1)
  }

  /** A match starts at `i`. */
  predicate MatchesAt(s: string, i: int) {
    0 <= i < |s| && s[i] == '[' && TextEnd(s, i + 1).Some?
  }

  /** `re.search`: the first position at or after `from` where a match starts. */
  function SearchFrom(s: string, from: nat): (r: Option<nat>)
    ensures r.Some? ==> from <= r.value && MatchesAt(s, r.value)
    ensures forall x :: from <= x && (r.None? || x < r.value) ==> !MatchesAt(s, x)
    decreases |s| - from
  {
    if from >= |s| then None
    else if MatchesAt(s, from) then Some(from)
    else SearchFrom(s, from + 1)
  }

  /** The match `re.search(r"\[(.*?)\]\((.*?)\)", s)` finds, as the positions of '[', ']' and ')'. */
  function FindLink(s: string): (r: Option<(nat, nat, nat)>)
    ensures r.Some? ==> LinkMatch(s, r.value.0, r.value.1, r.value.2)
  {
    match SearchFrom(s, 0)
    case None => None
    case Some(i) =>
      var j := TextEnd(s, i + 1).value;
      Some((i, j, UrlEnd(s, j + 2).value))
  }

  /**
   * What `re.search` promises: a match is found exactly when one exists, and
   * it is the leftmost one, with the shortest first group and, given that,
   * the shortest second group.
   */
  lemma {:induction false} FindLinkSpec(s: string)
    ensures FindLink(s).None? <==> forall i, j, k :: !LinkMatch(s, i, j, k)
    ensures FindLink(s).Some? ==>
      var (i, j, k) := FindLink(s).value;
      && LinkMatch(s, i, j, k)
      && (forall i', j', k' :: i' < i ==> !LinkMatch(s, i', j', k'))
      && (forall j', k' :: j' < j ==> !LinkMatch(s, i, j', k'))
      && (forall k' :: k' < k ==> !LinkMatch(s, i, j, k'))
  {
    forall i, j, k | LinkMatch(s, i, j, k)
      ensures ClosesText(s, j) && MatchesAt(s, i)
    {
      assert UrlEnd(s, j + 2).Some?;
      assert ClosesText(s, j);
      assert TextEnd(s, i + 1).Some?;
    }
    match FindLink(s)
    case None =>
    case Some((i, j, k)) =>
      assert MatchesAt(s, i);
      assert LinkMatch(s, i, j, k);
  }

  /** The text between the brackets of the link found. */
  function LinkText(s: string): string
    requires FindLink(s).Some?
  {
    s[FindLink(s).value.0 + 1..FindLink(s).value.1]
  }

  /** The target between the parentheses of the link found. */
  function LinkUrl(s: string): string
    requires FindLink(s).Some?
  {
    s[FindLink(s).value.1 + 2..FindLink(s).value.2]
  }

  /** The title and url of a rendered heading line (`_maybe_extract_title_url_from_heading`). */
  function ExtractTitleUrl(unescape: Unescaper, heading: string): (r: (string, Option<string>))
    ensures '#' !in r.0 && IsTrimmed(r.0)
    ensures r.1.Some? <==> IsHeadingALink(heading) && FindLink(heading).Some?
    ensures r.1.None? ==> r.0 == SanitizeTitle(unescape, heading)
    ensures r.1.Some? ==> r.0 == SanitizeTitle(unescape, LinkText(heading)) && r.1.value == LinkUrl(heading)
  {
    if IsHeadingALink(heading) && FindLink(heading).Some? then
      (SanitizeTitle(unescape, LinkText(heading)), Some(LinkUrl(heading)))
    else
      (SanitizeTitle(unescape, heading), None)
  }
}
