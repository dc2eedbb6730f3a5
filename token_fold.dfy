/**
 * The first half of `_parse_markdown_into_sections`
 * (src/chunker/markdown_section_chunker.py): the loop over the parsed tokens
 * that turns every heading into a new section and adds every other token's
 * rendering to the section before it. `Fold` is the loop's own step-by-step
 * specification; `Grouped` says independently which tokens end up in which
 * section, and `FoldIsGrouped` shows the two agree.
 */
module TokenFold {
  import opened Optional
  import opened Strings
  import opened TitleSanitizer
  import opened TitleExtractor
  import opened ChunkTypes

  /**
   * A top-level block token of the parsed document with its markdown
   * rendering. The markdown parser and renderer are not part of this model:
   * a token arrives already rendered.
   */
  datatype Token = Heading(level: int, rendered: string) | Other(rendered: string)

  /** The section a heading token opens: title and link from the rendered heading, no content yet. */
  function HeadingSection(unescape: Unescaper, level: int, rendered: string): (s: Section)
    ensures s.level == level && s.content == "" && s.subSections == []
  {
    var r := ExtractTitleUrl(unescape, rendered);
    Section(r.0, r.1, "", level, [])
  }

  /** `(content + "\n" + piece).strip()`: how a rendered token is added to a section. */
  function AppendContent(content: string, piece: string): string {
    Strip(content + "\n" + piece)
  }

  /** One iteration of the token loop. */
  function FoldStep(unescape: Unescaper, sections: seq<Section>, t: Token): seq<Section> {
    match t
    case Heading(level, rendered) => sections + [HeadingSection(unescape, level, rendered)]
    case Other(rendered) =>
      if |sections| > 0 then
        var last := sections[|sections| - 1];
        sections[|sections| - 1 := last.(content := AppendContent(last.content, Strip(rendered)))]
      else
        [Section("", None, Strip(rendered), 1, [])]
  }

  /** The sections after the loop has seen `tokens`. */
  function Fold(unescape: Unescaper, tokens: seq<Token>): seq<Section> {
    if tokens == [] then []
    else FoldStep(unescape, Fold(unescape, tokens[..|tokens| - 1]), tokens[|tokens| - 1])
  }

  // ---------------------------------------------------------------------------
  // Independent reference: grouping tokens under the heading before them
  // ---------------------------------------------------------------------------

  /** Number of non-heading tokens at the front. */
  function LeadingOthers(ts: seq<Token>): (n: nat)
    ensures n <= |ts|
    ensures n < |ts| ==> ts[n].Heading?
  {
    if ts == [] || ts[0].Heading? then 0 else 1 + LeadingOthers(ts[1..])
  }

  lemma {:induction false} LeadingOthersAreOthers(ts: seq<Token>)
    ensures forall i :: 0 <= i < LeadingOthers(ts) ==> ts[i].Other?
  {
    if ts != [] && ts[0].Other? {
      LeadingOthersAreOthers(ts[1..]);
    }
  }

  /** The stripped renderings of `ts` that are not blank, in order. */
  function Pieces(ts: seq<Token>): seq<string> {
    if ts == [] then [] else PieceOf(ts[0]) + Pieces(ts[1..])
  }

  /** A token's stripped rendering, unless it is blank. */
  function PieceOf(t: Token): seq<string> {
    if Strip(t.rendered) == "" then [] else [Strip(t.rendered)]
  }

  /** Every piece is a non-blank trimmed string. */
  lemma {:induction false} PiecesAreLines(ts: seq<Token>)
    ensures forall i :: 0 <= i < |Pieces(ts)| ==> Pieces(ts)[i] != "" && IsTrimmed(Pieces(ts)[i])
  {
    if ts != [] {
      PiecesAreLines(ts[1..]);
    }
  }

  /** Content made of the given tokens: their non-blank stripped renderings, one per line. */
  function Body(ts: seq<Token>): string {
    Join(Pieces(ts), "\n")
  }

  /**
   * Reference grouping: text before the first heading forms an untitled
   * level-1 section, and every heading owns the tokens up to the next heading.
   */
  function Grouped(unescape: Unescaper, ts: seq<Token>): seq<Section> {
    Lead(ts[..LeadingOthers(ts)]) + HeadedGroups(unescape, ts[LeadingOthers(ts)..])
  }

  /** Grouping of tokens that start with a heading. */
  function HeadedGroups(unescape: Unescaper, ts: seq<Token>): seq<Section>
    requires ts == [] || ts[0].Heading?
    decreases |ts|
  {
    if ts == [] then []
    else
      [HeadingSection(unescape, ts[0].level, ts[0].rendered).(content := Body(Owned(ts)))]
      + HeadedGroups(unescape, Later(ts))
  }

  /** The tokens the first heading owns: those up to the next heading. */
  function Owned(ts: seq<Token>): (r: seq<Token>)
    requires ts != []
    ensures |r| < |ts|
  {
    ts[1..1 + LeadingOthers(ts[1..])]
  }

  /** The tokens from the next heading on. */
  function Later(ts: seq<Token>): (r: seq<Token>)
    requires ts != []
    ensures |r| < |ts| && (r == [] || r[0].Heading?)
  {
    ts[1 + LeadingOthers(ts[1..])..]
  }

  // ---------------------------------------------------------------------------
  // Content accumulation
  // ---------------------------------------------------------------------------

  /** Adding a piece to trimmed content puts it on a line of its own, unless either is empty. */
  lemma AppendTrimmed(c: string, p: string)
    requires IsTrimmed(c) && IsTrimmed(p)
    ensures AppendContent(c, p) == if c == "" then p else if p == "" then c else c + "\n" + p
  {
    if c == "" {
      assert c + "\n" + p == "\n" + p + "";
      StripUnique("\n", p, "");
    } else if p == "" {
      assert c + "\n" + p == "" + c + "\n";
      StripUnique("", c, "\n");
    } else {
      assert c + "\n" + p == "" + (c + "\n" + p) + "";
      StripUnique("", c + "\n" + p, "");
    }
  }

  lemma {:induction false} PiecesSnoc(ts: seq<Token>, t: Token)
    ensures Pieces(ts + [t]) == Pieces(ts) + PieceOf(t)
  {
    if ts == [] {
      assert [t][1..] == [];
      assert ts + [t] == [t];
    } else {
      assert (ts + [t])[0] == ts[0];
      assert (ts + [t])[1..] == ts[1..] + [t];
      PiecesSnoc(ts[1..], t);
      Assoc(PieceOf(ts[0]), Pieces(ts[1..]), PieceOf(t));
    }
  }

  /** Adding a token's rendering to a body is the same as taking the body of one more token. */
  lemma BodySnoc(ts: seq<Token>, t: Token)
    ensures AppendContent(Body(ts), Strip(t.rendered)) == Body(ts + [t])
  {
    var p := Strip(t.rendered);
    PiecesSnoc(ts, t);
    PiecesAreLines(ts);
    JoinLines(Pieces(ts));
    AppendTrimmed(Body(ts), p);
    if Pieces(ts) != [] && p != "" {
      JoinSnoc(Pieces(ts), p, "\n");
    } else if p != "" {
      assert Pieces(ts + [t]) == [p];
    } else {
      assert Pieces(ts + [t]) == Pieces(ts);
    }
  }

  lemma BodyOne(t: Token)
    ensures Body([t]) == Strip(t.rendered)
  {
    assert [t][1..] == [];
    assert Pieces([t]) == if Strip(t.rendered) == "" then [] else [Strip(t.rendered)];
  }

  // ---------------------------------------------------------------------------
  // The loop agrees with the reference
  // ---------------------------------------------------------------------------

  lemma {:induction false} LeadingOthersSnoc(ts: seq<Token>, t: Token)
    ensures LeadingOthers(ts + [t]) ==
      if LeadingOthers(ts) < |ts| then LeadingOthers(ts)
      else if t.Other? then |ts| + 1 else |ts|
  {
    if ts == [] {
      assert [t][1..] == [];
    } else if ts[0].Other? {
      assert (ts + [t])[1..] == ts[1..] + [t];
      LeadingOthersSnoc(ts[1..], t);
    }
  }

  /** A step on a non-empty list only touches what comes after a fixed front. */
  lemma FoldStepAfter(unescape: Unescaper, front: seq<Section>, rest: seq<Section>, t: Token)
    requires rest != []
    ensures FoldStep(unescape, front + rest, t) == front + FoldStep(unescape, rest, t)
  {
    match t
    case Heading(_, _) =>
    case Other(rendered) =>
      var s := front + rest;
      assert s[..|s| - 1] == front + rest[..|rest| - 1];
  }

  lemma {:induction false} HeadedGroupsNonEmpty(unescape: Unescaper, ts: seq<Token>)
    requires ts != [] && ts[0].Heading?
    ensures HeadedGroups(unescape, ts) != []
  {
  }

  lemma {:induction false} HeadedGroupsSnoc(unescape: Unescaper, ts: seq<Token>, t: Token)
    requires ts != [] && ts[0].Heading?
    ensures HeadedGroups(unescape, ts + [t]) == FoldStep(unescape, HeadedGroups(unescape, ts), t)
    decreases |ts|
  {
    var n := LeadingOthers(ts[1..]);
    var us := ts + [t];
    assert us[1..] == ts[1..] + [t];
    LeadingOthersSnoc(ts[1..], t);
    if 1 + n < |ts| {
      HeadedGroupsSnoc(unescape, ts[1 + n..], t);
      SnocBeforeLastHeading(unescape, ts, t, n);
    } else if t.Other? {
      SnocOtherAfterLastHeading(unescape, ts, t, n);
    } else {
      SnocHeadingAfterLastHeading(unescape, ts, t, n);
    }
  }

  /** How a list starting with a heading is grouped: that heading, the tokens it owns, the rest. */
  lemma HeadedGroupsUnfold(unescape: Unescaper, ts: seq<Token>, n: nat)
    requires ts != [] && ts[0].Heading? && n == LeadingOthers(ts[1..])
    ensures HeadedGroups(unescape, ts) ==
      [HeadingSection(unescape, ts[0].level, ts[0].rendered).(content := Body(ts[1..1 + n]))]
      + HeadedGroups(unescape, ts[1 + n..])
  {
    assert Owned(ts) == ts[1..1 + n];
    assert Later(ts) == ts[1 + n..];
  }

  lemma SnocBeforeLastHeading(unescape: Unescaper, ts: seq<Token>, t: Token, n: nat)
    requires ts != [] && ts[0].Heading? && n == LeadingOthers(ts[1..]) && 1 + n < |ts|
    requires LeadingOthers((ts + [t])[1..]) == n
    requires HeadedGroups(unescape, ts[1 + n..] + [t]) == FoldStep(unescape, HeadedGroups(unescape, ts[1 + n..]), t)
    ensures HeadedGroups(unescape, ts + [t]) == FoldStep(unescape, HeadedGroups(unescape, ts), t)
  {
    var h := HeadingSection(unescape, ts[0].level, ts[0].rendered).(content := Body(ts[1..1 + n]));
    var rest := HeadedGroups(unescape, ts[1 + n..]);
    SnocKeepsFirstGroup(unescape, ts, t, n);
    HeadedGroupsNonEmpty(unescape, ts[1 + n..]);
    FoldStepAfter(unescape, [h], rest, t);
    HeadedGroupsUnfold(unescape, ts, n);
  }

  /** Appending after a later heading leaves the first heading's group as it was. */
  lemma SnocKeepsFirstGroup(unescape: Unescaper, ts: seq<Token>, t: Token, n: nat)
    requires ts != [] && ts[0].Heading? && n == LeadingOthers(ts[1..]) && 1 + n < |ts|
    requires LeadingOthers((ts + [t])[1..]) == n
    ensures HeadedGroups(unescape, ts + [t]) ==
      [HeadingSection(unescape, ts[0].level, ts[0].rendered).(content := Body(ts[1..1 + n]))]
      + HeadedGroups(unescape, ts[1 + n..] + [t])
  {
    HeadedGroupsUnfold(unescape, ts + [t], n);
    SnocRange(ts, t, 1, 1 + n);
  }

  lemma SnocOtherAfterLastHeading(unescape: Unescaper, ts: seq<Token>, t: Token, n: nat)
    requires ts != [] && ts[0].Heading? && n == LeadingOthers(ts[1..]) && 1 + n == |ts|
    requires t.Other? && LeadingOthers((ts + [t])[1..]) == n + 1
    ensures HeadedGroups(unescape, ts + [t]) == FoldStep(unescape, HeadedGroups(unescape, ts), t)
  {
    var h := HeadingSection(unescape, ts[0].level, ts[0].rendered);
    SnocOtherJoinsLastGroup(unescape, ts, t, n);
    BodySnoc(ts[1..], t);
    FoldStepOne(unescape, h.(content := Body(ts[1..])), t);
    LastGroupAlone(unescape, ts, n);
  }

  lemma SnocOtherJoinsLastGroup(unescape: Unescaper, ts: seq<Token>, t: Token, n: nat)
    requires ts != [] && ts[0].Heading? && 1 + n == |ts|
    requires t.Other? && LeadingOthers((ts + [t])[1..]) == n + 1
    ensures HeadedGroups(unescape, ts + [t]) ==
      [HeadingSection(unescape, ts[0].level, ts[0].rendered).(content := Body(ts[1..] + [t]))]
  {
    var us := ts + [t];
    assert us[1..1 + n + 1] == ts[1..] + [t];
    assert us[1 + n + 1..] == [];
    HeadedGroupsUnfold(unescape, us, n + 1);
  }

  lemma LastGroupAlone(unescape: Unescaper, ts: seq<Token>, n: nat)
    requires ts != [] && ts[0].Heading? && n == LeadingOthers(ts[1..]) && 1 + n == |ts|
    ensures HeadedGroups(unescape, ts) ==
      [HeadingSection(unescape, ts[0].level, ts[0].rendered).(content := Body(ts[1..]))]
  {
    assert ts[1..1 + n] == ts[1..];
    assert ts[1 + n..] == [];
    HeadedGroupsUnfold(unescape, ts, n);
  }

  /** A non-heading token adds its rendering to the only section there is. */
  lemma FoldStepOne(unescape: Unescaper, x: Section, t: Token)
    requires t.Other?
    ensures FoldStep(unescape, [x], t) == [x.(content := AppendContent(x.content, Strip(t.rendered)))]
  {
  }

  lemma SnocHeadingAfterLastHeading(unescape: Unescaper, ts: seq<Token>, t: Token, n: nat)
    requires ts != [] && ts[0].Heading? && n == LeadingOthers(ts[1..]) && 1 + n == |ts|
    requires t.Heading? && LeadingOthers((ts + [t])[1..]) == n
    ensures HeadedGroups(unescape, ts + [t]) == FoldStep(unescape, HeadedGroups(unescape, ts), t)
  {
    var us := ts + [t];
    assert us[1..1 + n] == ts[1..];
    assert us[1 + n..] == [t];
    assert ts[1..1 + n] == ts[1..];
    assert ts[1 + n..] == [];
    var h := HeadingSection(unescape, ts[0].level, ts[0].rendered).(content := Body(ts[1..]));
    HeadedGroupsUnfold(unescape, ts, n);
    assert HeadedGroups(unescape, ts) == [h];
    HeadedGroupsOne(unescape, t);
    HeadedGroupsUnfold(unescape, us, n);
    assert HeadedGroups(unescape, us) == [h] + [HeadingSection(unescape, t.level, t.rendered)];
  }

  lemma HeadedGroupsOne(unescape: Unescaper, t: Token)
    requires t.Heading?
    ensures HeadedGroups(unescape, [t]) == [HeadingSection(unescape, t.level, t.rendered)]
  {
    HeadedGroupsUnfold(unescape, [t], 0);
    assert [t][1..1] == [] && [t][1..] == [];
    assert Body([]) == "";
  }

  lemma GroupedSnoc(unescape: Unescaper, ts: seq<Token>, t: Token)
    ensures Grouped(unescape, ts + [t]) == FoldStep(unescape, Grouped(unescape, ts), t)
  {
    var n := LeadingOthers(ts);
    LeadingOthersSnoc(ts, t);
    if n < |ts| {
      HeadedGroupsSnoc(unescape, ts[n..], t);
      GroupedSnocAfterHeading(unescape, ts, t, n);
    } else if t.Other? {
      GroupedSnocLeadingOther(unescape, ts, t);
    } else {
      GroupedSnocFirstHeading(unescape, ts, t);
    }
  }

  /** The untitled section for text before the first heading, if there is any. */
  function Lead(others: seq<Token>): seq<Section> {
    if others == [] then [] else [Section("", None, Body(others), 1, [])]
  }

  /** Slicing a list with one more element at the end, away from that end. */
  lemma SnocRange<T>(a: seq<T>, x: T, i: nat, j: nat)
    requires i <= j <= |a|
    ensures (a + [x])[i..j] == a[i..j] && (a + [x])[j..] == a[j..] + [x]
  {
  }

  /** Slicing a list with one more element at the end. */
  lemma SnocSlices<T>(a: seq<T>, x: T, n: nat)
    requires n <= |a|
    ensures (a + [x])[..n] == a[..n] && (a + [x])[n..] == a[n..] + [x]
  {
  }

  lemma GroupedUnfold(unescape: Unescaper, ts: seq<Token>)
    ensures Grouped(unescape, ts) == Lead(ts[..LeadingOthers(ts)]) + HeadedGroups(unescape, ts[LeadingOthers(ts)..])
  {
  }

  lemma GroupedSnocAfterHeading(unescape: Unescaper, ts: seq<Token>, t: Token, n: nat)
    requires n == LeadingOthers(ts) < |ts| && LeadingOthers(ts + [t]) == n
    requires HeadedGroups(unescape, ts[n..] + [t]) == FoldStep(unescape, HeadedGroups(unescape, ts[n..]), t)
    ensures Grouped(unescape, ts + [t]) == FoldStep(unescape, Grouped(unescape, ts), t)
  {
    var rest := HeadedGroups(unescape, ts[n..]);
    SnocKeepsLead(unescape, ts, t, n);
    HeadedGroupsNonEmpty(unescape, ts[n..]);
    FoldStepAfter(unescape, Lead(ts[..n]), rest, t);
    GroupedUnfold(unescape, ts);
  }

  /** Appending after the first heading leaves the text before it as it was. */
  lemma SnocKeepsLead(unescape: Unescaper, ts: seq<Token>, t: Token, n: nat)
    requires n == LeadingOthers(ts) < |ts| && LeadingOthers(ts + [t]) == n
    ensures Grouped(unescape, ts + [t]) == Lead(ts[..n]) + HeadedGroups(unescape, ts[n..] + [t])
  {
    GroupedUnfold(unescape, ts + [t]);
    SnocSlices(ts, t, n);
  }

  lemma GroupedSnocLeadingOther(unescape: Unescaper, ts: seq<Token>, t: Token)
    requires LeadingOthers(ts) == |ts| && t.Other? && LeadingOthers(ts + [t]) == |ts| + 1
    ensures Grouped(unescape, ts + [t]) == FoldStep(unescape, Grouped(unescape, ts), t)
  {
    AllLead(unescape, ts + [t]);
    if ts == [] {
      assert ts + [t] == [t];
      BodyOne(t);
    } else {
      AllLead(unescape, ts);
      BodySnoc(ts, t);
      FoldStepOne(unescape, Section("", None, Body(ts), 1, []), t);
    }
  }

  /** Tokens without a heading form one untitled section. */
  lemma AllLead(unescape: Unescaper, ts: seq<Token>)
    requires ts != [] && LeadingOthers(ts) == |ts|
    ensures Grouped(unescape, ts) == [Section("", None, Body(ts), 1, [])]
  {
    GroupedAllLead(unescape, ts);
  }

  lemma GroupedSnocFirstHeading(unescape: Unescaper, ts: seq<Token>, t: Token)
    requires LeadingOthers(ts) == |ts| && t.Heading? && LeadingOthers(ts + [t]) == |ts|
    ensures Grouped(unescape, ts + [t]) == FoldStep(unescape, Grouped(unescape, ts), t)
  {
    FirstHeadingAfterLead(unescape, ts, t);
    GroupedAllLead(unescape, ts);
  }

  /** Tokens without a heading are grouped into their lead section alone. */
  lemma GroupedAllLead(unescape: Unescaper, ts: seq<Token>)
    requires LeadingOthers(ts) == |ts|
    ensures Grouped(unescape, ts) == Lead(ts)
  {
    GroupedUnfold(unescape, ts);
    WholeSlices(ts);
    HeadedGroupsEmpty(unescape);
  }

  lemma HeadedGroupsEmpty(unescape: Unescaper)
    ensures HeadedGroups(unescape, []) == []
  {
  }

  lemma WholeSlices<T>(s: seq<T>)
    ensures s[..|s|] == s && s[|s|..] == []
  {
  }

  lemma FirstHeadingAfterLead(unescape: Unescaper, ts: seq<Token>, t: Token)
    requires t.Heading? && LeadingOthers(ts + [t]) == |ts|
    ensures Grouped(unescape, ts + [t]) == Lead(ts) + [HeadingSection(unescape, t.level, t.rendered)]
  {
    GroupedUnfold(unescape, ts + [t]);
    SnocSlices(ts, t, |ts|);
    assert ts[..|ts|] == ts && ts[|ts|..] == [];
    HeadedGroupsOne(unescape, t);
  }

  /** The token loop produces exactly the reference grouping. */
  lemma {:induction false} FoldIsGrouped(unescape: Unescaper, tokens: seq<Token>)
    ensures Fold(unescape, tokens) == Grouped(unescape, tokens)
    decreases |tokens|
  {
    if tokens != [] {
      var front, last := tokens[..|tokens| - 1], tokens[|tokens| - 1];
      assert front + [last] == tokens;
      calc {
        Fold(unescape, tokens);
        FoldStep(unescape, Fold(unescape, front), last);
        { FoldIsGrouped(unescape, front); }
        FoldStep(unescape, Grouped(unescape, front), last);
        { GroupedSnoc(unescape, front, last); }
        Grouped(unescape, front + [last]);
      }
    }
  }

  // ---------------------------------------------------------------------------
  // What the grouping looks like
  // ---------------------------------------------------------------------------

  /** Number of heading tokens. */
  function HeadingCount(ts: seq<Token>): nat {
    if ts == [] then 0 else (if ts[0].Heading? then 1 else 0) + HeadingCount(ts[1..])
  }

  lemma DropSlice<T>(s: seq<T>, n: nat)
    requires 0 < n <= |s|
    ensures s[1..][n - 1..] == s[n..]
  {
  }

  lemma {:induction false} SkipOthers(ts: seq<Token>, n: nat)
    requires n <= LeadingOthers(ts)
    ensures HeadingCount(ts) == HeadingCount(ts[n..])
  {
    if n > 0 {
      SkipOthers(ts[1..], n - 1);
      DropSlice(ts, n);
    }
  }

  /** A body is trimmed: it starts and ends with a non-blank piece, or is empty. */
  lemma BodyTrimmed(ts: seq<Token>)
    ensures IsTrimmed(Body(ts))
  {
    PiecesAreLines(ts);
    JoinLines(Pieces(ts));
  }

  /** Sections as the token loop leaves them: no sub-sections, trimmed content. */
  predicate FreshSections(f: seq<Section>) {
    forall i :: 0 <= i < |f| ==> f[i].subSections == [] && IsTrimmed(f[i].content)
  }

  lemma FreshAppend(a: seq<Section>, b: seq<Section>)
    requires FreshSections(a) && FreshSections(b)
    ensures FreshSections(a + b)
  {
  }

  lemma SliceOfSlice<T>(s: seq<T>, i: nat, j: nat)
    requires i + j <= |s|
    ensures s[i..][j..] == s[i + j..] && s[i..][..j] == s[i..i + j]
  {
  }

  lemma {:induction false} HeadedGroupsShape(unescape: Unescaper, ts: seq<Token>)
    requires ts == [] || ts[0].Heading?
    ensures |HeadedGroups(unescape, ts)| == HeadingCount(ts)
    ensures FreshSections(HeadedGroups(unescape, ts))
    decreases |ts|
  {
    if ts != [] {
      var head := HeadingSection(unescape, ts[0].level, ts[0].rendered).(content := Body(Owned(ts)));
      HeadedGroupsShape(unescape, Later(ts));
      LaterCount(ts);
      HeadFresh(head, Owned(ts));
      FreshAppend([head], HeadedGroups(unescape, Later(ts)));
    }
  }

  /** The first heading is the only heading before the next one. */
  lemma LaterCount(ts: seq<Token>)
    requires ts != [] && ts[0].Heading?
    ensures HeadingCount(ts) == 1 + HeadingCount(Later(ts))
  {
    var n := LeadingOthers(ts[1..]);
    SkipOthers(ts[1..], n);
    SliceOfSlice(ts, 1, n);
  }

  lemma HeadFresh(head: Section, owned: seq<Token>)
    requires head.subSections == [] && head.content == Body(owned)
    ensures FreshSections([head])
  {
    BodyTrimmed(owned);
  }

  /**
   * One section per heading token, plus an untitled one when the document
   * starts with something other than a heading; every section has trimmed
   * content and no sub-sections yet.
   */
  lemma GroupedShape(unescape: Unescaper, ts: seq<Token>)
    ensures |Grouped(unescape, ts)| == HeadingCount(ts) + (if ts != [] && ts[0].Other? then 1 else 0)
    ensures FreshSections(Grouped(unescape, ts))
  {
    var n := LeadingOthers(ts);
    GroupedUnfold(unescape, ts);
    HeadedGroupsShape(unescape, ts[n..]);
    SkipOthers(ts, n);
    LeadShape(ts);
    FreshAppend(Lead(ts[..n]), HeadedGroups(unescape, ts[n..]));
  }

  /** The lead section exists exactly when the first token is not a heading, and is fresh. */
  lemma LeadShape(ts: seq<Token>)
    ensures |Lead(ts[..LeadingOthers(ts)])| == if ts != [] && ts[0].Other? then 1 else 0
    ensures FreshSections(Lead(ts[..LeadingOthers(ts)]))
  {
    var n := LeadingOthers(ts);
    if n == 0 {
      assert ts[..n] == [];
    } else {
      var lead := Section("", None, Body(ts[..n]), 1, []);
      assert Lead(ts[..n]) == [lead];
      BodyTrimmed(ts[..n]);
    }
  }
}
