/**
 * `_parse_markdown_into_sections` (src/chunker/markdown_section_chunker.py):
 * fold the token stream into a flat list of sections, then collapse that list
 * right to left into a forest by moving each section under its predecessor
 * whenever its level is strictly greater.
 */
module SectionBuilder {
  import opened Optional
  import opened Strings
  import opened TitleSanitizer
  import opened TitleExtractor
  import opened ChunkTypes
  import opened TokenFold

  // ---------------------------------------------------------------------------
  // The shape of the result
  // ---------------------------------------------------------------------------

  /** A section on its own, without its sub-sections. */
  function Node(s: Section): Section {
    s.(subSections := [])
  }

  /** Pre-order traversal: each section, then its sub-sections, then the sections after it. */
  function PreOrder(f: seq<Section>): seq<Section> {
    if f == [] then [] else [Node(f[0])] + PreOrder(f[0].subSections) + PreOrder(f[1..])
  }

  lemma {:induction false} PreOrderAppend(a: seq<Section>, b: seq<Section>)
    ensures PreOrder(a + b) == PreOrder(a) + PreOrder(b)
  {
    if a != [] {
      assert (a + b)[0] == a[0];
      assert (a + b)[1..] == a[1..] + b;
      PreOrderAppend(a[1..], b);
    } else {
      assert a + b == b;
    }
  }

  lemma PreOrderOne(t: Section)
    ensures PreOrder([t]) == [Node(t)] + PreOrder(t.subSections)
  {
    assert [t][1..] == [];
  }

  /** Every section of a flat list has no sub-sections. */
  predicate AllLeaves(p: seq<Section>) {
    forall i :: 0 <= i < |p| ==> p[i].subSections == []
  }

  lemma {:induction false} PreOrderOfLeaves(p: seq<Section>)
    requires AllLeaves(p)
    ensures PreOrder(p) == p
  {
    if p != [] {
      PreOrderOfLeaves(p[1..]);
      assert Node(p[0]) == p[0];
      assert p == [p[0]] + p[1..];
    }
  }

  /**
   * The shape the collapse produces: along every list of siblings (and along
   * the top-level list) levels never go up, and every sub-section's level is
   * strictly greater than its parent's.
   */
  predicate Canonical(f: seq<Section>) {
    f == [] || (
      && (|f| > 1 ==> f[1].level <= f[0].level)
      && (forall c :: c in f[0].subSections ==> c.level > f[0].level)
      && Canonical(f[0].subSections)
      && Canonical(f[1..]))
  }

  /** A section whose sub-sections have the canonical shape and greater levels. */
  predicate TreeOk(t: Section) {
    && Canonical(t.subSections)
    && forall c :: c in t.subSections ==> c.level > t.level
  }

  predicate NonIncreasing(f: seq<Section>) {
    forall i :: 0 < i < |f| ==> f[i].level <= f[i - 1].level
  }

  /** Canonical means exactly: every tree canonical and levels not going up along the list. */
  lemma {:induction false} CanonicalIff(f: seq<Section>)
    ensures Canonical(f) <==> (forall i :: 0 <= i < |f| ==> TreeOk(f[i])) && NonIncreasing(f)
  {
    if f != [] {
      CanonicalIff(f[1..]);
      assert forall i :: 0 < i < |f| ==> f[i] == f[1..][i - 1];
    }
  }

  /** Appending a canonical tree after a last sibling of equal or greater level keeps the list canonical. */
  lemma {:induction false} CanonicalSnoc(f: seq<Section>, u: Section)
    requires Canonical(f) && TreeOk(u)
    requires f != [] ==> f[|f| - 1].level >= u.level
    ensures Canonical(f + [u])
  {
    if f == [] {
      assert [u][1..] == [];
      assert f + [u] == [u];
    } else {
      var g := f + [u];
      assert g[0] == f[0];
      assert g[1..] == f[1..] + [u];
      if |f| > 1 {
        assert f[1..][|f[1..]| - 1] == f[|f| - 1];
        assert g[1] == f[1];
      }
      CanonicalSnoc(f[1..], u);
    }
  }

  // ---------------------------------------------------------------------------
  // A recursive reference for the collapse
  // ---------------------------------------------------------------------------

  /** Length of the run at the front of `p` whose levels all exceed `level`. */
  function RunAbove(p: seq<Section>, level: int): (n: nat)
    ensures n <= |p|
  {
    if p == [] || p[0].level <= level then 0 else 1 + RunAbove(p[1..], level)
  }

  /** The run is maximal: every section in it exceeds `level`, the one after it does not. */
  lemma {:induction false} RunAboveMaximal(p: seq<Section>, level: int)
    ensures forall i :: 0 <= i < RunAbove(p, level) ==> p[i].level > level
    ensures RunAbove(p, level) < |p| ==> p[RunAbove(p, level)].level <= level
  {
    if p != [] && p[0].level > level {
      RunAboveMaximal(p[1..], level);
    }
  }

  /**
   * Reference nesting: the first section takes as sub-sections the run of
   * sections after it whose level is greater, nested the same way; the rest
   * is nested the same way after it. Equivalently, a section's parent is the
   * nearest preceding section of smaller level.
   */
  function Nest(p: seq<Section>): seq<Section>
    decreases |p|
  {
    if p == [] then []
    else [p[0].(subSections := Nest(Below(p)))] + Nest(After(p))
  }

  /** The run after the first section whose levels exceed its level. */
  function Below(p: seq<Section>): (r: seq<Section>)
    requires p != []
    ensures |r| < |p|
  {
    p[1..1 + RunAbove(p[1..], p[0].level)]
  }

  /** What follows that run. */
  function After(p: seq<Section>): (r: seq<Section>)
    requires p != []
    ensures |r| < |p|
  {
    p[1 + RunAbove(p[1..], p[0].level)..]
  }

  /** The roots of a nesting are sections of the input, the first one first. */
  lemma {:induction false} NestRoots(p: seq<Section>, level: int)
    requires forall i :: 0 <= i < |p| ==> p[i].level > level
    ensures forall c :: c in Nest(p) ==> c.level > level
    decreases |p|
  {
    if p != [] {
      var n := RunAbove(p[1..], p[0].level);
      NestRoots(p[1 + n..], level);
    }
  }

  /** Nesting keeps every section, in order. */
  lemma {:induction false} NestPreOrder(p: seq<Section>)
    ensures PreOrder(Nest(p)) == Nodes(p)
    decreases |p|
  {
    if p != [] {
      var n := RunAbove(p[1..], p[0].level);
      NestPreOrder(p[1..1 + n]);
      NestPreOrder(p[1 + n..]);
      NestPreOrderStep(p, n);
    }
  }

  lemma NestPreOrderStep(p: seq<Section>, n: nat)
    requires p != [] && n == RunAbove(p[1..], p[0].level)
    requires PreOrder(Nest(p[1..1 + n])) == Nodes(p[1..1 + n])
    requires PreOrder(Nest(p[1 + n..])) == Nodes(p[1 + n..])
    ensures PreOrder(Nest(p)) == Nodes(p)
  {
    NestUnfold(p, n);
    NodesSplit(p, n);
  }

  lemma NestUnfold(p: seq<Section>, n: nat)
    requires p != [] && n == RunAbove(p[1..], p[0].level)
    requires PreOrder(Nest(p[1..1 + n])) == Nodes(p[1..1 + n])
    requires PreOrder(Nest(p[1 + n..])) == Nodes(p[1 + n..])
    ensures PreOrder(Nest(p)) == [Node(p[0])] + Nodes(p[1..1 + n]) + Nodes(p[1 + n..])
  {
    NestCons(p, n);
    PreOrderCons(p[0].(subSections := Nest(p[1..1 + n])), Nest(p[1 + n..]));
  }

  lemma NestCons(p: seq<Section>, n: nat)
    requires p != [] && n == RunAbove(p[1..], p[0].level)
    ensures Nest(p) == [p[0].(subSections := Nest(p[1..1 + n]))] + Nest(p[1 + n..])
  {
  }

  lemma NodesSplit(p: seq<Section>, n: nat)
    requires 1 + n <= |p|
    ensures Nodes(p) == [Node(p[0])] + Nodes(p[1..1 + n]) + Nodes(p[1 + n..])
  {
  }

  lemma PreOrderCons(head: Section, rest: seq<Section>)
    ensures PreOrder([head] + rest) == [Node(head)] + PreOrder(head.subSections) + PreOrder(rest)
  {
    assert ([head] + rest)[1..] == rest;
  }

  /** The sections of a flat list on their own. */
  function Nodes(p: seq<Section>): (r: seq<Section>)
  {
    seq(|p|, i requires 0 <= i < |p| => Node(p[i]))
  }

  /** The reference nesting has the canonical shape. */
  lemma {:induction false} NestCanonical(p: seq<Section>)
    ensures Canonical(Nest(p))
    decreases |p|
  {
    if p != [] {
      NestCanonical(Below(p));
      NestCanonical(After(p));
      BelowAfterLevels(p);
      NestRoots(Below(p), p[0].level);
      NestFirstLevel(After(p));
      CanonicalCons(p[0].(subSections := Nest(Below(p))), Nest(After(p)));
    }
  }

  /** The run below the first section is deeper than it; what follows is not. */
  lemma BelowAfterLevels(p: seq<Section>)
    requires p != []
    ensures forall i :: 0 <= i < |Below(p)| ==> Below(p)[i].level > p[0].level
    ensures After(p) != [] ==> After(p)[0].level <= p[0].level
  {
    RunAboveMaximal(p[1..], p[0].level);
  }

  /** The first root of a nesting is the first section. */
  lemma NestFirstLevel(p: seq<Section>)
    ensures p != [] ==> Nest(p) != [] && Nest(p)[0].level == p[0].level
  {
  }

  /** A canonical tree in front of a canonical list whose first level is not greater. */
  lemma CanonicalCons(head: Section, rest: seq<Section>)
    requires TreeOk(head) && Canonical(rest)
    requires rest != [] ==> rest[0].level <= head.level
    ensures Canonical([head] + rest)
  {
    var f := [head] + rest;
    assert f[0] == head && f[1..] == rest;
  }

  /** Every section of a canonical forest whose roots exceed `level` exceeds `level`. */
  lemma {:induction false} CanonicalAbove(f: seq<Section>, level: int)
    requires Canonical(f)
    requires forall c :: c in f ==> c.level > level
    ensures forall i :: 0 <= i < |PreOrder(f)| ==> PreOrder(f)[i].level > level
  {
    if f != [] {
      CanonicalAbove(f[0].subSections, f[0].level);
      assert forall c :: c in f[1..] ==> c in f;
      CanonicalAbove(f[1..], level);
    }
  }

  lemma {:induction false} RunAboveConcat(a: seq<Section>, b: seq<Section>, level: int)
    requires forall i :: 0 <= i < |a| ==> a[i].level > level
    requires b != [] ==> b[0].level <= level
    ensures RunAbove(a + b, level) == |a|
  {
    if a != [] {
      assert (a + b)[1..] == a[1..] + b;
      RunAboveConcat(a[1..], b, level);
    } else {
      assert a + b == b;
    }
  }

  /** A canonical forest is the reference nesting of its own traversal: the shape is unique. */
  lemma {:induction false} CanonicalIsNest(f: seq<Section>)
    requires Canonical(f)
    ensures Nest(PreOrder(f)) == f
  {
    if f != [] {
      var t := f[0];
      var below, after := PreOrder(t.subSections), PreOrder(f[1..]);
      PreOrderCons(t, f[1..]);
      assert f == [t] + f[1..];
      CanonicalAbove(t.subSections, t.level);
      if |f| > 1 {
        PreOrderHead(f[1..]);
      }
      RunAboveConcat(below, after, t.level);
      NestOfConcat(t, below, after);
      CanonicalIsNest(t.subSections);
      CanonicalIsNest(f[1..]);
    }
  }

  lemma PreOrderHead(f: seq<Section>)
    requires f != []
    ensures PreOrder(f) != [] && PreOrder(f)[0] == Node(f[0])
  {
  }

  lemma NestOfConcat(t: Section, below: seq<Section>, after: seq<Section>)
    requires RunAbove(below + after, t.level) == |below|
    ensures Nest([Node(t)] + below + after) == [t.(subSections := Nest(below))] + Nest(after)
  {
    var p := [Node(t)] + below + after;
    assert p[1..] == below + after;
    NestCons(p, |below|);
    assert p[1..1 + |below|] == below;
    assert p[1 + |below|..] == after;
  }

  /** Two canonical forests with the same traversal are the same forest. */
  lemma CanonicalUnique(f: seq<Section>, g: seq<Section>)
    requires Canonical(f) && Canonical(g)
    requires PreOrder(f) == PreOrder(g)
    ensures f == g
  {
    CanonicalIsNest(f);
    CanonicalIsNest(g);
  }

  // ---------------------------------------------------------------------------
  // The collapse loop
  // ---------------------------------------------------------------------------

  /** The level of the last sub-section is at least `level`, if there is one. */
  predicate LastChildAtLeast(t: Section, level: int) {
    t.subSections != [] ==> t.subSections[|t.subSections| - 1].level >= level
  }

  /** Each section's last sub-section is at least as deep as the next section. */
  predicate LastChildrenAtLeast(f: seq<Section>) {
    forall i :: 0 < i < |f| ==> LastChildAtLeast(f[i - 1], f[i].level)
  }

  predicate AllTreesOk(f: seq<Section>) {
    forall i :: 0 <= i < |f| ==> TreeOk(f[i])
  }

  /** `f` with the section at `index` appended to the sub-sections of the one before it. */
  function Attach(f: seq<Section>, index: nat): (g: seq<Section>)
    requires 0 < index < |f|
    ensures |g| == |f| - 1
  {
    var parent := f[index - 1];
    f[..index - 1] + [parent.(subSections := parent.subSections + [f[index]])] + f[index + 1..]
  }

  /** Where each section of `f` is after the attach. */
  lemma AttachIndex(f: seq<Section>, index: nat)
    requires 0 < index < |f|
    ensures forall i :: 0 <= i < index - 1 ==> Attach(f, index)[i] == f[i]
    ensures Attach(f, index)[index - 1] == f[index - 1].(subSections := f[index - 1].subSections + [f[index]])
    ensures forall i :: index <= i < |f| - 1 ==> Attach(f, index)[i] == f[i + 1]
  {
  }

  lemma AttachPreOrder(f: seq<Section>, index: nat)
    requires 0 < index < |f|
    ensures PreOrder(Attach(f, index)) == PreOrder(f)
  {
    var parent, child := f[index - 1], f[index];
    SplitAround(f, index);
    AttachPreOrderOf(f[..index - 1], parent, child, f[index + 1..]);
  }

  lemma SplitAround<T>(f: seq<T>, i: nat)
    requires 0 < i < |f|
    ensures f == f[..i - 1] + ([f[i - 1]] + [f[i]]) + f[i + 1..]
  {
  }

  lemma AttachPreOrderOf(before: seq<Section>, parent: Section, child: Section, after: seq<Section>)
    ensures PreOrder(before + [parent.(subSections := parent.subSections + [child])] + after)
         == PreOrder(before + ([parent] + [child]) + after)
  {
    AdoptPreOrder(parent, child);
    PreOrderMiddle(before, [parent.(subSections := parent.subSections + [child])], after);
    PreOrderMiddle(before, [parent] + [child], after);
  }

  /** Making a section the last sub-section of its predecessor does not change the traversal. */
  lemma AdoptPreOrder(parent: Section, child: Section)
    ensures PreOrder([parent.(subSections := parent.subSections + [child])]) == PreOrder([parent] + [child])
  {
    PreOrderOne(parent.(subSections := parent.subSections + [child]));
    PreOrderAppend(parent.subSections, [child]);
    PreOrderAppend([parent], [child]);
    PreOrderOne(parent);
  }

  lemma PreOrderMiddle(a: seq<Section>, m: seq<Section>, b: seq<Section>)
    ensures PreOrder(a + m + b) == PreOrder(a) + PreOrder(m) + PreOrder(b)
  {
    PreOrderAppend(a + m, b);
    PreOrderAppend(a, m);
  }

  lemma AttachTreesOk(f: seq<Section>, index: nat)
    requires 0 < index < |f| && f[index].level > f[index - 1].level
    requires AllTreesOk(f) && LastChildrenAtLeast(f)
    ensures AllTreesOk(Attach(f, index))
  {
    var parent, child := f[index - 1], f[index];
    assert LastChildAtLeast(parent, child.level);
    CanonicalSnoc(parent.subSections, child);
    AttachIndex(f, index);
  }

  lemma AttachLastChildren(f: seq<Section>, index: nat)
    requires 0 < index < |f| && f[index].level > f[index - 1].level
    requires index + 1 < |f| ==> f[index + 1].level <= f[index].level
    requires LastChildrenAtLeast(f)
    ensures LastChildrenAtLeast(Attach(f, index))
  {
    AttachIndex(f, index);
  }

  /** Right of `index`, levels never go up. */
  predicate SettledAfter(f: seq<Section>, index: int) {
    forall i :: index < i < |f| && 0 < i ==> f[i].level <= f[i - 1].level
  }

  /** What the collapse keeps at every step: the traversal, the tree shapes and the settled suffix. */
  predicate Collapsing(f: seq<Section>, index: int, flat: seq<Section>) {
    && -1 <= index < |f|
    && PreOrder(f) == flat
    && AllTreesOk(f) && LastChildrenAtLeast(f)
    && SettledAfter(f, index)
  }

  /** Attaching the section at `index` and rescanning from the end keeps the collapse's invariant. */
  lemma AttachStep(f: seq<Section>, index: nat, flat: seq<Section>)
    requires Collapsing(f, index, flat) && index > 0
    requires f[index].level > f[index - 1].level
    ensures Collapsing(Attach(f, index), |Attach(f, index)| - 1, flat)
  {
    AttachPreOrder(f, index);
    AttachTreesOk(f, index);
    AttachLastChildren(f, index);
  }

  /** When the collapse stops, the forest is canonical: it is the reference nesting of its traversal. */
  lemma CollapseDone(f: seq<Section>, index: int, flat: seq<Section>)
    requires Collapsing(f, index, flat) && index <= 0
    ensures Canonical(f) && f == Nest(flat)
  {
    CanonicalIff(f);
    CanonicalIsNest(f);
  }

  /**
   * The `while index > 0` loop: scanning from the right, move a section under
   * its predecessor when its level is strictly greater, and rescan from the
   * end after every move.
   */
  method Collapse(flat: seq<Section>) returns (forest: seq<Section>)
    requires AllLeaves(flat)
    ensures Canonical(forest)
    ensures PreOrder(forest) == flat
    ensures forest == Nest(flat)
  {
    forest := flat;
    PreOrderOfLeaves(flat);
    var index := |forest| - 1;
    while index > 0
      invariant Collapsing(forest, index, flat)
      decreases |forest|, index
    {
      if forest[index].level > forest[index - 1].level {
        AttachStep(forest, index, flat);
        forest := Attach(forest, index);
        index := |forest| - 1;
      } else {
        index := index - 1;
      }
    }
    CollapseDone(forest, index, flat);
  }

  // ---------------------------------------------------------------------------
  // The whole parse
  // ---------------------------------------------------------------------------

  lemma PrefixStep<T>(s: seq<T>, i: nat)
    requires i < |s|
    ensures s[..i + 1][..i] == s[..i] && s[..i + 1][i] == s[i]
  {
  }

  /**
   * The token loop of `_parse_markdown_into_sections`: a heading opens a new
   * section, any other token's stripped rendering is added to the last
   * section, or opens a level-1 section without a title when there is none.
   */
  method FoldTokens(unescape: Unescaper, tokens: seq<Token>) returns (flat: seq<Section>)
    ensures flat == Grouped(unescape, tokens)
  {
    flat := [];
    for i := 0 to |tokens|
      invariant flat == Fold(unescape, tokens[..i])
    {
      PrefixStep(tokens, i);
      flat := AddToken(unescape, flat, tokens[i]);
    }
    assert tokens[..|tokens|] == tokens;
    FoldIsGrouped(unescape, tokens);
  }

  /** The body of the token loop for one token. */
  method AddToken(unescape: Unescaper, flat: seq<Section>, t: Token) returns (next: seq<Section>)
    ensures next == FoldStep(unescape, flat, t)
  {
    match t
    case Heading(level, rendered) =>
      var r := ExtractTitleUrl(unescape, rendered);
      next := flat + [Section(r.0, r.1, "", level, [])];
    case Other(rendered) =>
      var piece := Strip(rendered);
      if |flat| > 0 {
        var last := flat[|flat| - 1];
        next := flat[|flat| - 1 := last.(content := Strip(last.content + "\n" + piece))];
      } else {
        next := [Section("", None, piece, 1, [])];
      }
  }

  /**
   * `_parse_markdown_into_sections` after the document has been parsed into
   * rendered tokens: the token loop, then the collapse. The result is the
   * reference nesting of the reference grouping.
   */
  method ParseIntoSections(unescape: Unescaper, tokens: seq<Token>) returns (sections: seq<Section>)
    ensures sections == Nest(Grouped(unescape, tokens))
    ensures Canonical(sections)
    ensures PreOrder(sections) == Grouped(unescape, tokens)
  {
    var flat := FoldTokens(unescape, tokens);
    GroupedShape(unescape, tokens);
    sections := Collapse(flat);
  }

  /** Levels 1, 3, 2: both later sections become sub-sections of the first, in order. */
  lemma NestSkippedLevel(a: Section, b: Section, c: Section)
    requires a.level == 1 && b.level == 3 && c.level == 2
    requires b.subSections == [] && c.subSections == []
    ensures Nest([a, b, c]) == [a.(subSections := [b, c])]
  {
    NestSingle(c);
    assert [b, c][1..] == [c] && [b, c][1..1] == [] && [b, c][1..] == [c];
    assert RunAbove([c], 3) == 0;
    NestCons([b, c], 0);
    assert Nest([b, c]) == [b.(subSections := Nest([]))] + Nest([c]);
    assert Nest([b, c]) == [b, c];
    assert [a, b, c][1..] == [b, c] && [a, b, c][1..3] == [b, c] && [a, b, c][3..] == [];
    assert RunAbove([b, c], 1) == 2;
    NestCons([a, b, c], 2);
  }

  lemma NestSingle(a: Section)
    requires a.subSections == []
    ensures Nest([a]) == [a]
  {
    assert [a][1..] == [] && [a][1..1] == [];
  }

  /** Levels 1, 2, 3: a chain, each section under the one before it. */
  lemma NestChain(a: Section, b: Section, c: Section)
    requires a.level == 1 && b.level == 2 && c.level == 3
    requires b.subSections == [] && c.subSections == []
    ensures Nest([a, b, c]) == [a.(subSections := [b.(subSections := [c])])]
  {
    NestSingle(c);
    assert [b, c][1..] == [c] && [b, c][1..2] == [c] && [b, c][2..] == [];
    assert RunAbove([c], 2) == 1;
    NestCons([b, c], 1);
    assert Nest([b, c]) == [b.(subSections := Nest([c]))] + Nest([]);
    assert Nest([b, c]) == [b.(subSections := [c])];
    assert [a, b, c][1..] == [b, c] && [a, b, c][1..3] == [b, c] && [a, b, c][3..] == [];
    assert RunAbove([b, c], 1) == 2;
    NestCons([a, b, c], 2);
  }

  /** Levels 2, 1: a deeper section first stays a sibling of the shallower one after it. */
  lemma NestRising(a: Section, b: Section)
    requires a.level == 2 && b.level == 1
    requires a.subSections == [] && b.subSections == []
    ensures Nest([a, b]) == [a, b]
  {
    NestSingle(b);
    assert [a, b][1..] == [b] && [a, b][1..1] == [];
    assert RunAbove([b], 2) == 0;
    NestCons([a, b], 0);
  }
}
