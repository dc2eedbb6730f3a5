/**
 * `split` and `_chunk_markdown_section` (src/chunker/markdown_section_chunker.py):
 * every section of the forest becomes one chunk, or one chunk per piece when
 * its content is longer than the limit, headed by the breadcrumb of titles
 * from its top-level section down to it; a section's own chunks come before
 * those of its sub-sections.
 */
module SectionChunker {
  import opened Optional
  import opened Strings
  import opened TitleSanitizer
  import opened ChunkTypes
  import opened TokenFold
  import opened SectionBuilder

  /**
   * `RecursiveCharacterTextSplitter(chunk_size=n, chunk_overlap=0).split_text`,
   * a library call outside this model: it is a parameter.
   */
  type Splitter = (string, int) -> seq<string>

  /** Python truthiness of an optional string: present and non-empty. */
  predicate Truthy(o: Option<string>) {
    o.Some? && o.value != ""
  }

  // ---------------------------------------------------------------------------
  // Headings and titles
  // ---------------------------------------------------------------------------

  /** `_create_chunk_heading`: the prefix and the title joined by " > ", leaving out an empty one. */
  function ChunkHeading(prefix: Option<string>, title: string): string {
    if Truthy(prefix) && |title| > 0 then prefix.value + " > " + title
    else if Truthy(prefix) then prefix.value
    else if |title| > 0 then title
    else ""
  }

  /** `_create_root_heading`: the title, or "" when it is empty, which is the title again. */
  function RootHeading(title: string): (r: string)
    ensures r == title
  {
    if |title| > 0 then title else ""
  }

  /** `_format_split_title`: the heading with " Part <n>" after it, or "" without a heading. */
  function FormatSplitTitle(heading: string, split: nat): string {
    if heading != "" then heading + " Part " + NatToString(split) else ""
  }

  /** `_format_section_with_heading`: a "# " heading line above the content, when there is a heading. */
  function FormatSectionWithHeading(heading: string, content: string, split: Option<nat>): string {
    if heading != "" && split.Some? && split.value != 0 then
      "# " + FormatSplitTitle(heading, split.value) + "\n" + content
    else if heading != "" then "# " + heading + "\n" + content
    else content
  }

  /** The non-empty strings of `ts`, in order. */
  function NonEmpty(ts: seq<string>): (r: seq<string>)
    ensures forall k :: 0 <= k < |r| ==> r[k] != ""
  {
    if ts == [] then []
    else NonEmpty(ts[..|ts| - 1]) + (if ts[|ts| - 1] == "" then [] else [ts[|ts| - 1]])
  }

  /** The breadcrumb for a path of titles: the non-empty ones joined by " > ". */
  function PathHeading(path: seq<string>): string {
    Join(NonEmpty(path), " > ")
  }

  /**
   * The heading of a section is the breadcrumb of the path down to it: given
   * the breadcrumb of its parent's path as prefix, or no prefix at the top.
   */
  lemma ChunkHeadingPath(path: seq<string>, title: string)
    ensures ChunkHeading(Some(PathHeading(path)), title) == PathHeading(path + [title])
    ensures ChunkHeading(None, title) == PathHeading([title])
  {
    var ne := NonEmpty(path);
    assert (path + [title])[..|path|] == path;
    assert NonEmpty(path + [title]) == ne + (if title == "" then [] else [title]);
    JoinNonEmpty(ne, " > ");
    if title == "" {
      assert ne + [] == ne;
    } else if ne == [] {
      assert ne + [title] == [title];
    } else {
      JoinSnoc(ne, title, " > ");
    }
    assert [title][..0] == [];
    assert NonEmpty([title]) == NonEmpty([]) + (if title == "" then [] else [title]);
  }

  /** Reads the part number back from a title `title + " Part " + digits`. */
  function PartNumber(t: string, title: string): Option<nat> {
    var n := |title| + 6;
    if |t| > n && t[..n] == title + " Part " && AllDigits(t[n..]) then Some(DigitsValue(t[n..]))
    else None
  }

  /** A part title names its 1-based part number, so different parts have different titles. */
  lemma PartTitleNumber(title: string, i: nat, j: nat)
    requires title != ""
    ensures PartNumber(FormatSplitTitle(title, i), title) == Some(i)
    ensures i != j ==> FormatSplitTitle(title, i) != FormatSplitTitle(title, j)
  {
    var t := FormatSplitTitle(title, i);
    var n := |title| + 6;
    assert t[..n] == title + " Part ";
    assert t[n..] == NatToString(i);
    NatToStringRoundTrip(i);
    var u := FormatSplitTitle(title, j);
    assert u[n..] == NatToString(j);
    NatToStringRoundTrip(j);
  }

  // ---------------------------------------------------------------------------
  // Chunking
  // ---------------------------------------------------------------------------

  /** `max_chars and len(content) > max_chars`: no limit and a limit of 0 both switch splitting off. */
  predicate ShouldSplit(maxChars: Option<int>, content: string) {
    maxChars.Some? && maxChars.value != 0 && |content| > maxChars.value
  }

  /** The chunks of one section's own content, without its sub-sections. */
  function OwnChunks(title: string, content: string, maxChars: Option<int>, heading: string, root: string,
                     splitText: Splitter): seq<Chunk>
  {
    if ShouldSplit(maxChars, content) then
      var pieces := splitText(content, maxChars.value);
      seq(|pieces|, i requires 0 <= i < |pieces| =>
        Chunk(FormatSectionWithHeading(heading, pieces[i], Some(i + 1)), pieces[i],
              FormatSplitTitle(title, i + 1), root))
    else
      [Chunk(FormatSectionWithHeading(heading, content, None), content, RootHeading(title), root)]
  }

  /**
   * `_chunk_markdown_section`: the section's own chunks, then the chunks of its
   * sub-sections, each given this section's heading as prefix and the same root title.
   */
  function ChunkSection(s: Section, maxChars: Option<int>, prefix: Option<string>, parent: Option<string>,
                        splitText: Splitter): seq<Chunk>
    decreases s, 1
  {
    var heading := ChunkHeading(prefix, s.title);
    var root := if parent.None? then RootHeading(s.title) else parent.value;
    OwnChunks(s.title, s.content, maxChars, heading, root, splitText)
      + ChunkChildren(s.subSections, maxChars, heading, root, splitText)
  }

  /** The loop over `sub_sections` in `_chunk_markdown_section`. */
  function ChunkChildren(subs: seq<Section>, maxChars: Option<int>, heading: string, root: string,
                         splitText: Splitter): seq<Chunk>
    decreases subs, 0
  {
    if subs == [] then []
    else
      ChunkSection(subs[0], maxChars, Some(heading), Some(root), splitText)
        + ChunkChildren(subs[1..], maxChars, heading, root, splitText)
  }

  /** The chunks of top-level sections, each chunked with no prefix and no parent. */
  function ChunkForest(f: seq<Section>, maxChars: Option<int>, splitText: Splitter): seq<Chunk> {
    if f == [] then []
    else ChunkForest(f[..|f| - 1], maxChars, splitText) + ChunkSection(f[|f| - 1], maxChars, None, None, splitText)
  }

  /**
   * `split`: parse the token stream into a forest and chunk every top-level
   * section in order.
   */
  method SplitDocument(unescape: Unescaper, tokens: seq<Token>, maxChars: Option<int>, splitText: Splitter)
    returns (chunks: seq<Chunk>)
    ensures chunks == ChunkForest(Nest(Grouped(unescape, tokens)), maxChars, splitText)
  {
    var sections := ParseIntoSections(unescape, tokens);
    chunks := ChunkTopLevel(sections, maxChars, splitText);
  }

  /** The loop of `split` over the top-level sections. */
  method ChunkTopLevel(sections: seq<Section>, maxChars: Option<int>, splitText: Splitter)
    returns (chunks: seq<Chunk>)
    ensures chunks == ChunkForest(sections, maxChars, splitText)
  {
    chunks := [];
    for i := 0 to |sections|
      invariant chunks == ChunkForest(sections[..i], maxChars, splitText)
    {
      ChunkForestStep(sections, i, maxChars, splitText);
      chunks := chunks + ChunkSection(sections[i], maxChars, None, None, splitText);
    }
    assert sections[..|sections|] == sections;
  }

  lemma ChunkForestStep(f: seq<Section>, i: nat, maxChars: Option<int>, splitText: Splitter)
    requires i < |f|
    ensures ChunkForest(f[..i + 1], maxChars, splitText)
         == ChunkForest(f[..i], maxChars, splitText) + ChunkSection(f[i], maxChars, None, None, splitText)
  {
    PrefixStep(f, i);
  }

  // ---------------------------------------------------------------------------
  // Reference: chunk the pre-order list of sections one by one
  // ---------------------------------------------------------------------------

  /** Every section of a forest in pre-order, each with the titles from its top-level ancestor down to it. */
  function Paths(f: seq<Section>, path: seq<string>): seq<(Section, seq<string>)> {
    if f == [] then []
    else
      var here := path + [f[0].title];
      [(Node(f[0]), here)] + Paths(f[0].subSections, here) + Paths(f[1..], path)
  }

  function Firsts(items: seq<(Section, seq<string>)>): seq<Section> {
    seq(|items|, k requires 0 <= k < |items| => items[k].0)
  }

  /** Each section of the list chunked on its own, under the breadcrumb of its path. */
  function ChunkEach(items: seq<(Section, seq<string>)>, maxChars: Option<int>, root: string,
                     splitText: Splitter): seq<Chunk>
  {
    if items == [] then []
    else
      OwnChunks(items[0].0.title, items[0].0.content, maxChars, PathHeading(items[0].1), root, splitText)
        + ChunkEach(items[1..], maxChars, root, splitText)
  }

  lemma {:induction false} ChunkEachAppend(a: seq<(Section, seq<string>)>, b: seq<(Section, seq<string>)>,
                                           maxChars: Option<int>, root: string, splitText: Splitter)
    ensures ChunkEach(a + b, maxChars, root, splitText)
         == ChunkEach(a, maxChars, root, splitText) + ChunkEach(b, maxChars, root, splitText)
  {
    if a == [] {
      assert a + b == b;
    } else {
      assert (a + b)[1..] == a[1..] + b;
      ChunkEachAppend(a[1..], b, maxChars, root, splitText);
    }
  }

  lemma PathsOne(s: Section, path: seq<string>)
    ensures Paths([s], path) == [(Node(s), path + [s.title])] + Paths(s.subSections, path + [s.title])
  {
    assert [s][1..] == [];
  }

  lemma PathsCons(f: seq<Section>, path: seq<string>)
    requires f != []
    ensures Paths(f, path) == Paths([f[0]], path) + Paths(f[1..], path)
  {
    PathsOne(f[0], path);
  }

  /** The sections the reference visits are the pre-order traversal of the forest. */
  lemma {:induction false} PathsPreOrder(f: seq<Section>, path: seq<string>)
    ensures Firsts(Paths(f, path)) == PreOrder(f)
  {
    if f != [] {
      var here := path + [f[0].title];
      PathsPreOrder(f[0].subSections, here);
      PathsPreOrder(f[1..], path);
      var a, b, c := [(Node(f[0]), here)], Paths(f[0].subSections, here), Paths(f[1..], path);
      assert Paths(f, path) == a + b + c;
      FirstsAppend(a + b, c);
      FirstsAppend(a, b);
      assert Firsts(a) == [Node(f[0])];
    }
  }

  lemma FirstsAppend(a: seq<(Section, seq<string>)>, b: seq<(Section, seq<string>)>)
    ensures Firsts(a + b) == Firsts(a) + Firsts(b)
  {
  }

  /**
   * The recursion chunks exactly what the reference does: each section of the
   * pre-order list on its own, headed by the breadcrumb of its path, all with
   * the same root title.
   */
  lemma {:induction false} ChunkSectionByPath(s: Section, maxChars: Option<int>, path: seq<string>, root: string,
                                              splitText: Splitter)
    ensures ChunkSection(s, maxChars, Some(PathHeading(path)), Some(root), splitText)
         == ChunkEach(Paths([s], path), maxChars, root, splitText)
    decreases s, 1
  {
    var here := path + [s.title];
    ChunkHeadingPath(path, s.title);
    ChunkChildrenByPath(s.subSections, maxChars, here, root, splitText);
    PathsOne(s, path);
    ChunkEachAppend([(Node(s), here)], Paths(s.subSections, here), maxChars, root, splitText);
  }

  lemma {:induction false} ChunkChildrenByPath(subs: seq<Section>, maxChars: Option<int>, path: seq<string>,
                                               root: string, splitText: Splitter)
    ensures ChunkChildren(subs, maxChars, PathHeading(path), root, splitText)
         == ChunkEach(Paths(subs, path), maxChars, root, splitText)
    decreases subs, 0
  {
    if subs != [] {
      ChunkSectionByPath(subs[0], maxChars, path, root, splitText);
      ChunkChildrenByPath(subs[1..], maxChars, path, root, splitText);
      PathsCons(subs, path);
      ChunkEachAppend(Paths([subs[0]], path), Paths(subs[1..], path), maxChars, root, splitText);
    }
  }

  /** A top-level section is chunked like the reference with the empty path and its own title as root. */
  lemma TopLevelByPath(s: Section, maxChars: Option<int>, splitText: Splitter)
    ensures ChunkSection(s, maxChars, None, None, splitText) == ChunkEach(Paths([s], []), maxChars, s.title, splitText)
  {
    assert PathHeading([]) == "";
    ChunkHeadingPath([], s.title);
    ChunkSectionByPath(s, maxChars, [], s.title, splitText);
  }

  // ---------------------------------------------------------------------------
  // What the chunks are
  // ---------------------------------------------------------------------------

  /** Every chunk the reference produces carries the root title it was given. */
  lemma {:induction false} ChunkEachRoot(items: seq<(Section, seq<string>)>, maxChars: Option<int>, root: string,
                                         splitText: Splitter)
    ensures forall c :: c in ChunkEach(items, maxChars, root, splitText) ==> c.rootTitle == root
  {
    if items != [] {
      ChunkEachRoot(items[1..], maxChars, root, splitText);
    }
  }

  /** Every chunk of a top-level section, however deep, names that section's title as its root title. */
  lemma RootTitleFixed(s: Section, maxChars: Option<int>, splitText: Splitter)
    ensures forall c :: c in ChunkSection(s, maxChars, None, None, splitText) ==> c.rootTitle == s.title
  {
    TopLevelByPath(s, maxChars, splitText);
    ChunkEachRoot(Paths([s], []), maxChars, s.title, splitText);
  }

  /**
   * A section split into pieces gives one chunk per piece, in the splitter's
   * order: the piece itself, under a heading line naming its 1-based part
   * number, with a title that reads back as that part number.
   */
  lemma OwnChunksSplit(title: string, content: string, maxChars: Option<int>, heading: string, root: string,
                       splitText: Splitter)
    requires ShouldSplit(maxChars, content)
    ensures |OwnChunks(title, content, maxChars, heading, root, splitText)| == |splitText(content, maxChars.value)|
    ensures forall i :: 0 <= i < |splitText(content, maxChars.value)| ==>
      PartChunk(OwnChunks(title, content, maxChars, heading, root, splitText)[i],
                splitText(content, maxChars.value)[i], i + 1, title, heading, root)
  {
    var r := OwnChunks(title, content, maxChars, heading, root, splitText);
    var pieces := splitText(content, maxChars.value);
    forall i | 0 <= i < |pieces|
      ensures PartChunk(r[i], pieces[i], i + 1, title, heading, root)
    {
      assert r[i] == Chunk(FormatSectionWithHeading(heading, pieces[i], Some(i + 1)), pieces[i],
                           FormatSplitTitle(title, i + 1), root);
      PartChunkOf(pieces[i], i + 1, title, heading, root);
    }
  }

  /**
   * Part `n` of a split section: the piece itself, under a heading line naming
   * the part number when there is a heading, with the same root title, and a
   * title that reads back as the part number (empty without a title).
   */
  predicate PartChunk(c: Chunk, piece: string, n: nat, title: string, heading: string, root: string) {
    && c.originalContent == piece
    && c.rootTitle == root
    && (heading == "" ==> c.content == piece)
    && (heading != "" ==> c.content == "# " + heading + " Part " + NatToString(n) + "\n" + piece)
    && (title == "" ==> c.originalTitle == "")
    && (title != "" ==> PartNumber(c.originalTitle, title) == Some(n))
  }

  lemma PartChunkOf(piece: string, n: nat, title: string, heading: string, root: string)
    requires n > 0
    ensures PartChunk(Chunk(FormatSectionWithHeading(heading, piece, Some(n)), piece, FormatSplitTitle(title, n), root),
                      piece, n, title, heading, root)
  {
    if title != "" {
      PartTitleNumber(title, n, n);
    }
  }

  /** The chunk of a section that is not split: its content under its breadcrumb heading line. */
  function WholeChunk(node: Section, path: seq<string>, root: string): Chunk {
    var h := PathHeading(path);
    Chunk(if h == "" then node.content else "# " + h + "\n" + node.content, node.content, node.title, root)
  }

  /** No section of the list is longer than the limit (or there is no limit). */
  predicate Unsplit(maxChars: Option<int>, ns: seq<Section>) {
    forall k :: 0 <= k < |ns| ==> !ShouldSplit(maxChars, ns[k].content)
  }

  lemma {:induction false} ChunkEachUnsplit(items: seq<(Section, seq<string>)>, maxChars: Option<int>, root: string,
                                            splitText: Splitter)
    requires Unsplit(maxChars, Firsts(items))
    ensures var r := ChunkEach(items, maxChars, root, splitText);
      |r| == |items| && forall k :: 0 <= k < |items| ==> r[k] == WholeChunk(items[k].0, items[k].1, root)
  {
    if items != [] {
      assert Firsts(items[1..]) == Firsts(items)[1..];
      ChunkEachUnsplit(items[1..], maxChars, root, splitText);
      assert !ShouldSplit(maxChars, Firsts(items)[0].content);
    }
  }

  /**
   * When no section is longer than the limit, a top-level section gives one
   * chunk per section of its tree, in pre-order: the section's own content,
   * its own title, the top-level title as root, and a heading line with the
   * breadcrumb of titles down to it (none when every title on the path is empty).
   */
  lemma TopLevelUnsplit(s: Section, maxChars: Option<int>, splitText: Splitter)
    requires Unsplit(maxChars, PreOrder([s]))
    ensures var r := ChunkSection(s, maxChars, None, None, splitText);
      var items := Paths([s], []);
      && |r| == |PreOrder([s])| == |items|
      && forall k :: 0 <= k < |r| ==> r[k] == WholeChunk(PreOrder([s])[k], items[k].1, s.title)
  {
    var items := Paths([s], []);
    TopLevelByPath(s, maxChars, splitText);
    PathsPreOrder([s], []);
    ChunkEachUnsplit(items, maxChars, s.title, splitText);
  }

  /** The text of each chunk, without its heading line. */
  function OriginalContents(cs: seq<Chunk>): seq<string> {
    seq(|cs|, k requires 0 <= k < |cs| => cs[k].originalContent)
  }

  /** The content of each section. */
  function Contents(ns: seq<Section>): seq<string> {
    seq(|ns|, k requires 0 <= k < |ns| => ns[k].content)
  }

  /**
   * When no section is longer than the limit, the chunks of a forest hold the
   * contents of its sections in pre-order, one chunk each.
   */
  lemma {:induction false} ForestUnsplitContents(f: seq<Section>, maxChars: Option<int>, splitText: Splitter)
    requires Unsplit(maxChars, PreOrder(f))
    ensures OriginalContents(ChunkForest(f, maxChars, splitText)) == Contents(PreOrder(f))
    decreases |f|
  {
    if f != [] {
      var init, s := f[..|f| - 1], f[|f| - 1];
      assert f == init + [s];
      PreOrderAppend(init, [s]);
      var a, b := PreOrder(init), PreOrder([s]);
      UnsplitParts(maxChars, a, b);
      ForestUnsplitContents(init, maxChars, splitText);
      TopLevelContents(s, maxChars, splitText);
      var x, y := ChunkForest(init, maxChars, splitText), ChunkSection(s, maxChars, None, None, splitText);
      assert ChunkForest(f, maxChars, splitText) == x + y;
      OriginalContentsAppend(x, y);
      ContentsAppend(a, b);
    }
  }

  lemma UnsplitParts(maxChars: Option<int>, a: seq<Section>, b: seq<Section>)
    requires Unsplit(maxChars, a + b)
    ensures Unsplit(maxChars, a) && Unsplit(maxChars, b)
  {
    forall k | 0 <= k < |a| ensures !ShouldSplit(maxChars, a[k].content) {
      assert a[k] == (a + b)[k];
    }
    forall k | 0 <= k < |b| ensures !ShouldSplit(maxChars, b[k].content) {
      assert b[k] == (a + b)[|a| + k];
    }
  }

  /** A top-level section with nothing to split gives the contents of its tree in pre-order. */
  lemma TopLevelContents(s: Section, maxChars: Option<int>, splitText: Splitter)
    requires Unsplit(maxChars, PreOrder([s]))
    ensures OriginalContents(ChunkSection(s, maxChars, None, None, splitText)) == Contents(PreOrder([s]))
  {
    TopLevelUnsplit(s, maxChars, splitText);
  }

  lemma OriginalContentsAppend(x: seq<Chunk>, y: seq<Chunk>)
    ensures OriginalContents(x + y) == OriginalContents(x) + OriginalContents(y)
  {
  }

  lemma ContentsAppend(a: seq<Section>, b: seq<Section>)
    ensures Contents(a + b) == Contents(a) + Contents(b)
  {
  }

  /**
   * End to end: when no grouped section is longer than the limit, the chunks of
   * a document hold the contents of its sections in document order, one chunk
   * each, whatever the heading levels.
   */
  lemma DocumentUnsplit(unescape: Unescaper, tokens: seq<Token>, maxChars: Option<int>, splitText: Splitter)
    requires Unsplit(maxChars, Grouped(unescape, tokens))
    ensures OriginalContents(ChunkForest(Nest(Grouped(unescape, tokens)), maxChars, splitText))
         == Contents(Grouped(unescape, tokens))
  {
    var g := Grouped(unescape, tokens);
    NestPreOrder(g);
    NodesKeepContents(maxChars, g);
    ForestUnsplitContents(Nest(g), maxChars, splitText);
  }

  /** Taking sections on their own keeps their contents. */
  lemma NodesKeepContents(maxChars: Option<int>, g: seq<Section>)
    ensures Contents(Nodes(g)) == Contents(g)
    ensures Unsplit(maxChars, g) ==> Unsplit(maxChars, Nodes(g))
  {
  }

  /** With no limit nothing is split, whatever the lengths. */
  lemma NoLimitUnsplit(ns: seq<Section>)
    ensures Unsplit(None, ns) && Unsplit(Some(0), ns)
  {
  }

  /** A three-level document: the breadcrumb grows with the depth and the root title stays the top title. */
  lemma NestedExample(splitText: Splitter)
    ensures var docker := Section("Docker", None, "c", 3, []);
      var setup := Section("Setup", None, "b", 2, [docker]);
      var intro := Section("Intro", None, "a", 1, [setup]);
      ChunkSection(intro, None, None, None, splitText)
        == [Chunk("# Intro\na", "a", "Intro", "Intro"),
            Chunk("# Intro > Setup\nb", "b", "Setup", "Intro"),
            Chunk("# Intro > Setup > Docker\nc", "c", "Docker", "Intro")]
  {
    var docker := Section("Docker", None, "c", 3, []);
    var setup := Section("Setup", None, "b", 2, [docker]);
    var intro := Section("Intro", None, "a", 1, [setup]);
    var c1 := Chunk("# Intro\na", "a", "Intro", "Intro");
    var c2 := Chunk("# Intro > Setup\nb", "b", "Setup", "Intro");
    var c3 := Chunk("# Intro > Setup > Docker\nc", "c", "Docker", "Intro");
    DockerLevel(docker, splitText);
    SetupLevel(docker, setup, splitText);
    IntroLevel(setup, intro, [c2, c3], splitText);
  }

  lemma DockerLevel(docker: Section, splitText: Splitter)
    requires docker == Section("Docker", None, "c", 3, [])
    ensures ChunkChildren([docker], None, "Intro > Setup", "Intro", splitText)
         == [Chunk("# Intro > Setup > Docker\nc", "c", "Docker", "Intro")]
  {
    var c3 := Chunk("# Intro > Setup > Docker\nc", "c", "Docker", "Intro");
    assert ChunkHeading(Some("Intro > Setup"), "Docker") == "Intro > Setup > Docker";
    assert FormatSectionWithHeading("Intro > Setup > Docker", "c", None) == "# Intro > Setup > Docker\nc";
    assert OwnChunks("Docker", "c", None, "Intro > Setup > Docker", "Intro", splitText) == [c3];
    assert ChunkChildren([], None, "Intro > Setup > Docker", "Intro", splitText) == [];
    assert ChunkSection(docker, None, Some("Intro > Setup"), Some("Intro"), splitText) == [c3];
    assert [docker][1..] == [];
  }

  lemma SetupLevel(docker: Section, setup: Section, splitText: Splitter)
    requires docker == Section("Docker", None, "c", 3, [])
    requires setup == Section("Setup", None, "b", 2, [docker])
    ensures ChunkChildren([setup], None, "Intro", "Intro", splitText)
         == [Chunk("# Intro > Setup\nb", "b", "Setup", "Intro"),
             Chunk("# Intro > Setup > Docker\nc", "c", "Docker", "Intro")]
  {
    var c2 := Chunk("# Intro > Setup\nb", "b", "Setup", "Intro");
    var c3 := Chunk("# Intro > Setup > Docker\nc", "c", "Docker", "Intro");
    DockerLevel(docker, splitText);
    assert ChunkHeading(Some("Intro"), "Setup") == "Intro > Setup";
    assert FormatSectionWithHeading("Intro > Setup", "b", None) == "# Intro > Setup\nb";
    assert OwnChunks("Setup", "b", None, "Intro > Setup", "Intro", splitText) == [c2];
    assert ChunkSection(setup, None, Some("Intro"), Some("Intro"), splitText) == [c2, c3];
    assert [setup][1..] == [];
  }

  lemma IntroLevel(setup: Section, intro: Section, below: seq<Chunk>, splitText: Splitter)
    requires intro == Section("Intro", None, "a", 1, [setup])
    requires ChunkChildren([setup], None, "Intro", "Intro", splitText) == below
    ensures ChunkSection(intro, None, None, None, splitText) == [Chunk("# Intro\na", "a", "Intro", "Intro")] + below
  {
    var c1 := Chunk("# Intro\na", "a", "Intro", "Intro");
    assert ChunkHeading(None, "Intro") == "Intro";
    assert FormatSectionWithHeading("Intro", "a", None) == "# Intro\na";
    assert OwnChunks("Intro", "a", None, "Intro", "Intro", splitText) == [c1];
  }
}
