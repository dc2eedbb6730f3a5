/**
 * The text helpers of `PymuConverter` (src/converter/pymu.py): whether a
 * document needs OCR, the page header written before each OCR'd page, and
 * the clean-up of OCR text. Page texts, which PyMuPDF extracts, are given as
 * strings.
 */
module PymuText {
  import opened Optional
  import opened Strings

  // ---------------------------------------------------------------------------
  // `_needs_ocr`
  // ---------------------------------------------------------------------------

  /** Only the first pages are looked at. */
  const PagesChecked: nat := 5
  /** A page with less stripped text than this needs OCR. */
  const MinPageChars: nat := 50

  predicate ShortPage(page: string) {
    |Strip(page)| < MinPageChars
  }

  /** The `any(...)` generator of `_needs_ocr`, from page index `i` on. */
  function AnyShortFrom(pages: seq<string>, i: nat): bool
    decreases PagesChecked - i
  {
    if i >= |pages| || i >= PagesChecked then false
    else ShortPage(pages[i]) || AnyShortFrom(pages, i + 1)
  }

  /** `_needs_ocr`, over the texts of the document's pages. */
  function NeedsOcr(pages: seq<string>): bool {
    AnyShortFrom(pages, 0)
  }

  lemma {:induction false} AnyShortFromIff(pages: seq<string>, i: nat)
    ensures AnyShortFrom(pages, i) <==> exists k :: i <= k < |pages| && k < PagesChecked && ShortPage(pages[k])
    decreases PagesChecked - i
  {
    if i < |pages| && i < PagesChecked {
      AnyShortFromIff(pages, i + 1);
      if AnyShortFrom(pages, i) && !ShortPage(pages[i]) {
        var k :| i + 1 <= k < |pages| && k < PagesChecked && ShortPage(pages[k]);
        assert i <= k;
      }
      if exists k :: i <= k < |pages| && k < PagesChecked && ShortPage(pages[k]) {
        var k :| i <= k < |pages| && k < PagesChecked && ShortPage(pages[k]);
        assert k == i || i + 1 <= k;
      }
    }
  }

  /**
   * OCR is needed exactly when one of the first min(5, n) pages has fewer than
   * 50 characters once stripped; a document without pages never needs it.
   */
  lemma NeedsOcrIff(pages: seq<string>)
    ensures NeedsOcr(pages) <==> exists k :: 0 <= k < |pages| && k < PagesChecked && ShortPage(pages[k])
    ensures pages == [] ==> !NeedsOcr(pages)
  {
    AnyShortFromIff(pages, 0);
  }

  /** Pages after the fifth never change the answer. */
  lemma NeedsOcrFirstPages(pages: seq<string>, more: seq<string>)
    requires |pages| >= PagesChecked
    ensures NeedsOcr(pages + more) == NeedsOcr(pages)
  {
    NeedsOcrIff(pages);
    NeedsOcrIff(pages + more);
    assert forall k :: 0 <= k < PagesChecked ==> (pages + more)[k] == pages[k];
  }

  // ---------------------------------------------------------------------------
  // `_add_page_header`
  // ---------------------------------------------------------------------------

  /** The rule written between pages. */
  const Separator: string := "\n\n---\n\n"

  /** `_add_page_header`: a "# Page n" line (1-based), after a rule on every page but the first. */
  function AddPageHeader(pageNum: nat): string {
    var separator := if pageNum > 0 then Separator else "";
    separator + "# Page " + NatToString(pageNum + 1) + "\n\n"
  }

  /** Reads a page header back: the 0-based page index it was written for. */
  function ParsePageHeader(h: string): Option<nat> {
    var n := LineNumber(if Ruled(h) then h[7..] else h);
    if n.Some? && n.value >= 1 && (Ruled(h) <==> n.value >= 2) then Some(n.value - 1) else None
  }

  /** The header starts with the rule between pages. */
  predicate Ruled(h: string) {
    |h| >= 7 && h[..7] == Separator
  }

  /** The number on a "# Page n" line followed by a blank line, if that is what `line` is. */
  function LineNumber(line: string): Option<nat> {
    if |line| > 9 && line[..7] == "# Page " && line[|line| - 2..] == "\n\n" && AllDigits(line[7..|line| - 2]) then
      Some(DigitsValue(line[7..|line| - 2]))
    else None
  }

  /**
   * The header names the page and nothing else: reading it back gives the page
   * index, and it starts with the rule exactly when the page is not the first.
   */
  lemma PageHeaderRoundTrip(pageNum: nat)
    ensures ParsePageHeader(AddPageHeader(pageNum)) == Some(pageNum)
    ensures pageNum > 0 <==> Ruled(AddPageHeader(pageNum))
  {
    HeaderLineNumber(pageNum);
    if pageNum == 0 {
      FirstHeaderShape();
    } else {
      LaterHeaderShape(pageNum);
    }
  }

  /** The "# Page n" line, which is what the parser reads past the rule. */
  function HeaderLine(pageNum: nat): string {
    "# Page " + NatToString(pageNum + 1) + "\n\n"
  }

  /** The line reads back as the 1-based page number. */
  lemma HeaderLineNumber(pageNum: nat)
    ensures LineNumber(HeaderLine(pageNum)) == Some(pageNum + 1)
  {
    var line := HeaderLine(pageNum);
    var digits := NatToString(pageNum + 1);
    assert line == "# Page " + digits + "\n\n";
    assert line[..7] == "# Page ";
    assert line[|line| - 2..] == "\n\n";
    assert line[7..|line| - 2] == digits;
    NatToStringRoundTrip(pageNum + 1);
  }

  /** The first page's header is the bare line, which does not start with the rule. */
  lemma FirstHeaderShape()
    ensures AddPageHeader(0) == HeaderLine(0) && !Ruled(HeaderLine(0))
  {
    var line := HeaderLine(0);
    assert line[0] == '#';
    assert |line| >= 7 ==> line[..7][0] == '#';
  }

  /** A later page's header is the rule, then the line. */
  lemma LaterHeaderShape(pageNum: nat)
    requires pageNum > 0
    ensures Ruled(AddPageHeader(pageNum)) && AddPageHeader(pageNum)[7..] == HeaderLine(pageNum)
  {
    var h := AddPageHeader(pageNum);
    assert h == Separator + HeaderLine(pageNum);
    assert h[..7] == Separator && h[7..] == HeaderLine(pageNum);
  }

  /** The first page's header: no rule. */
  lemma FirstPageHeader()
    ensures AddPageHeader(0) == "# Page 1\n\n"
  {
  }

  // ---------------------------------------------------------------------------
  // `_clean_ocr_text`
  // ---------------------------------------------------------------------------

  /** `[line.strip() for line in lines if line.strip()]`. */
  function CleanLines(lines: seq<string>): seq<string> {
    if lines == [] then []
    else
      var l := Strip(lines[0]);
      (if l != "" then [l] else []) + CleanLines(lines[1..])
  }

  /** `_clean_ocr_text`: drop blank lines, strip the others, then turn each "  " into " ". */
  function CleanOcrText(text: string): string {
    Replace(Join(CleanLines(Split(text, '\n')), "\n"), "  ", " ")
  }

  /** A line that is a line of its input has no newline in it, stripped or not. */
  lemma StripNoNewline(l: string)
    requires '\n' !in l
    ensures '\n' !in Strip(l)
  {
    StripSpec(l);
    var n := LeadingSpace(l);
    assert Strip(l) == l[n..n + |Strip(l)|];
  }

  /** The kept lines are non-empty, trimmed, and have no newline. */
  lemma {:induction false} CleanLinesShape(lines: seq<string>)
    requires forall i :: 0 <= i < |lines| ==> '\n' !in lines[i]
    ensures forall i :: 0 <= i < |CleanLines(lines)| ==>
      CleanLines(lines)[i] != "" && IsTrimmed(CleanLines(lines)[i]) && '\n' !in CleanLines(lines)[i]
  {
    if lines != [] {
      CleanLinesShape(lines[1..]);
      StripNoNewline(lines[0]);
    }
  }

  /** Cleaning works line by line, so the kept lines stay in their order. */
  lemma {:induction false} CleanLinesAppend(a: seq<string>, b: seq<string>)
    ensures CleanLines(a + b) == CleanLines(a) + CleanLines(b)
  {
    if a == [] {
      assert a + b == b;
    } else {
      var l := Strip(a[0]);
      var head := if l != "" then [l] else [];
      assert (a + b)[0] == a[0];
      assert (a + b)[1..] == a[1..] + b;
      assert CleanLines(a + b) == head + CleanLines(a[1..] + b);
      assert CleanLines(a) == head + CleanLines(a[1..]);
      CleanLinesAppend(a[1..], b);
      Assoc(head, CleanLines(a[1..]), CleanLines(b));
    }
  }

  /** A line is kept exactly when it is the stripped form of a non-blank input line. */
  lemma {:induction false} CleanLinesMembers(lines: seq<string>, l: string)
    ensures l in CleanLines(lines) <==> exists i :: 0 <= i < |lines| && Strip(lines[i]) == l && l != ""
  {
    if lines != [] {
      CleanLinesMembers(lines[1..], l);
      if l in CleanLines(lines[1..]) {
        var i :| 0 <= i < |lines[1..]| && Strip(lines[1..][i]) == l && l != "";
        assert Strip(lines[i + 1]) == l;
      }
      if exists i :: 0 <= i < |lines| && Strip(lines[i]) == l && l != "" {
        var i :| 0 <= i < |lines| && Strip(lines[i]) == l && l != "";
        if i > 0 {
          assert lines[1..][i - 1] == lines[i];
        }
      }
    }
  }

  /** Turning "  " into " " keeps the first and the last character, and adds no newline. */
  lemma {:induction false} SqueezeEnds(x: string)
    ensures var r := Replace(x, "  ", " ");
      && (x != [] ==> r != [] && r[0] == x[0] && r[|r| - 1] == x[|x| - 1])
      && ('\n' !in x ==> '\n' !in r)
    decreases |x|
  {
    if |x| >= 2 {
      if x[..2] == "  " {
        SqueezeEnds(x[2..]);
      } else {
        SqueezeEnds(x[1..]);
        assert x[..1] == [x[0]];
      }
    }
  }

  /** No "  " spans a newline, so squeezing works on each side of one separately. */
  lemma {:induction false} SqueezeAtNewline(a: string, b: string)
    ensures Replace(a + "\n" + b, "  ", " ") == Replace(a, "  ", " ") + "\n" + Replace(b, "  ", " ")
    decreases |a|, 1
  {
    if |a| == 0 {
      SqueezeNewlineFirst(b);
      assert a + "\n" + b == "\n" + b;
    } else if |a| == 1 {
      SqueezeAfterOne(a, b);
    } else if a[0] == ' ' && a[1] == ' ' {
      SqueezeAfterSpaces(a, b);
    } else {
      SqueezeAfterChar(a, b);
    }
  }

  lemma SqueezeAfterOne(a: string, b: string)
    requires |a| == 1
    ensures Replace(a + "\n" + b, "  ", " ") == Replace(a, "  ", " ") + "\n" + Replace(b, "  ", " ")
  {
    SqueezeNewlineFirst(b);
    SqueezeNewlineSecond(a[0], b);
    assert a == [a[0]];
    Regroup(a, [], "\n", Replace(b, "  ", " "));
  }

  lemma {:induction false} SqueezeAfterSpaces(a: string, b: string)
    requires |a| >= 2 && a[0] == ' ' && a[1] == ' '
    ensures Replace(a + "\n" + b, "  ", " ") == Replace(a, "  ", " ") + "\n" + Replace(b, "  ", " ")
    decreases |a|, 0
  {
    SqueezeAtNewline(a[2..], b);
    SqueezeDropsBefore(a, b);
    Regroup(" ", Replace(a[2..], "  ", " "), "\n", Replace(b, "  ", " "));
  }

  lemma {:induction false} SqueezeAfterChar(a: string, b: string)
    requires |a| >= 2 && (a[0] != ' ' || a[1] != ' ')
    ensures Replace(a + "\n" + b, "  ", " ") == Replace(a, "  ", " ") + "\n" + Replace(b, "  ", " ")
    decreases |a|, 0
  {
    SqueezeAtNewline(a[1..], b);
    SqueezeKeepsBefore(a, b);
    Regroup([a[0]], Replace(a[1..], "  ", " "), "\n", Replace(b, "  ", " "));
  }

  lemma SqueezeNewlineFirst(b: string)
    ensures Replace("\n" + b, "  ", " ") == "\n" + Replace(b, "  ", " ")
  {
    var s := "\n" + b;
    if |b| > 0 {
      SqueezeKeeps(s);
      assert s[1..] == b;
    }
  }

  lemma SqueezeNewlineSecond(c: char, b: string)
    ensures Replace([c] + "\n" + b, "  ", " ") == [c] + Replace("\n" + b, "  ", " ")
  {
    var s := [c] + "\n" + b;
    assert s[0] == c && s[1] == '\n';
    SqueezeKeeps(s);
    assert s[1..] == "\n" + b;
  }

  lemma SqueezeDropsBefore(a: string, b: string)
    requires |a| >= 2 && a[0] == ' ' && a[1] == ' '
    ensures Replace(a + "\n" + b, "  ", " ") == " " + Replace(a[2..] + "\n" + b, "  ", " ")
    ensures Replace(a, "  ", " ") == " " + Replace(a[2..], "  ", " ")
  {
    var s := a + "\n" + b;
    assert s[0] == ' ' && s[1] == ' ';
    SqueezeDrops(s);
    SqueezeDrops(a);
    assert s[2..] == a[2..] + "\n" + b;
  }

  lemma SqueezeKeepsBefore(a: string, b: string)
    requires |a| >= 2 && (a[0] != ' ' || a[1] != ' ')
    ensures Replace(a + "\n" + b, "  ", " ") == [a[0]] + Replace(a[1..] + "\n" + b, "  ", " ")
    ensures Replace(a, "  ", " ") == [a[0]] + Replace(a[1..], "  ", " ")
  {
    var s := a + "\n" + b;
    assert s[0] == a[0] && s[1] == a[1];
    SqueezeKeeps(s);
    SqueezeKeeps(a);
    assert s[1..] == a[1..] + "\n" + b;
  }

  /** Where no "  " starts, the first character is copied. */
  lemma SqueezeKeeps(x: string)
    requires |x| >= 2 && (x[0] != ' ' || x[1] != ' ')
    ensures Replace(x, "  ", " ") == [x[0]] + Replace(x[1..], "  ", " ")
  {
    assert x[..2] != "  " by {
      assert x[..2][0] == x[0] && x[..2][1] == x[1];
    }
  }

  /** Where "  " starts, it becomes one space. */
  lemma SqueezeDrops(x: string)
    requires |x| >= 2 && x[0] == ' ' && x[1] == ' '
    ensures Replace(x, "  ", " ") == " " + Replace(x[2..], "  ", " ")
  {
    assert x[..2] == "  ";
  }

  /** Each line squeezed on its own. */
  function SqueezeLines(xs: seq<string>): (r: seq<string>)
    ensures |r| == |xs|
  {
    if xs == [] then [] else [Replace(xs[0], "  ", " ")] + SqueezeLines(xs[1..])
  }

  lemma {:induction false} SqueezeJoin(xs: seq<string>)
    ensures Replace(Join(xs, "\n"), "  ", " ") == Join(SqueezeLines(xs), "\n")
  {
    if |xs| > 1 {
      SqueezeJoin(xs[1..]);
      SqueezeAtNewline(xs[0], Join(xs[1..], "\n"));
    }
  }

  lemma {:induction false} SqueezeLinesShape(xs: seq<string>)
    requires forall i :: 0 <= i < |xs| ==> xs[i] != "" && IsTrimmed(xs[i]) && '\n' !in xs[i]
    ensures forall i :: 0 <= i < |xs| ==>
      SqueezeLines(xs)[i] != "" && IsTrimmed(SqueezeLines(xs)[i]) && '\n' !in SqueezeLines(xs)[i]
  {
    if xs != [] {
      SqueezeLinesShape(xs[1..]);
      SqueezeEnds(xs[0]);
    }
  }

  /**
   * The cleaned text is not padded, and, unless it is empty, every one of its
   * lines is non-empty and has no surrounding whitespace (so it never holds
   * "\n\n"). It is never longer than the kept lines joined.
   */
  lemma CleanOcrTextLines(text: string)
    ensures var r := CleanOcrText(text);
      && IsTrimmed(r)
      && |r| <= |Join(CleanLines(Split(text, '\n')), "\n")|
      && (r == "" || forall i :: 0 <= i < |Split(r, '\n')| ==>
            Split(r, '\n')[i] != "" && IsTrimmed(Split(r, '\n')[i]))
  {
    var kept := CleanLines(Split(text, '\n'));
    CleanLinesShape(Split(text, '\n'));
    SqueezeJoin(kept);
    var lines := SqueezeLines(kept);
    SqueezeLinesShape(kept);
    JoinLines(lines);
    if lines != [] {
      SplitJoin(lines, '\n');
    }
  }

  /** Three spaces become two: one pass of the replacement can leave a double space. */
  lemma SqueezeLeavesDoubleSpace()
    ensures Replace("a   b", "  ", " ") == "a  b"
  {
    assert Replace("b", "  ", " ") == "b";
    assert " b"[..2][1] == 'b';
    assert " b"[1..] == "b";
    assert Replace(" b", "  ", " ") == " b";
    assert "   b"[..2] == "  " && "   b"[2..] == " b";
    assert Replace("   b", "  ", " ") == "  b";
    assert "a   b"[..2][0] == 'a';
    assert "a   b"[1..] == "   b";
  }
}
