/** The document: an ordered, append-only collection of elements with
    convenience builders, rendered as the elements separated by blank lines,
    and saved under a file name derived from its display name. */
module Documents {
  import opened PyStr
  import opened Markdown

  // ===========================================================================
  // Rendering a sequence of elements
  // ===========================================================================

  /** The objects the renders of `es` read. */
  function Frame(es: seq<Element>): set<object>
    decreases |es|
  {
    if es == [] then {} else es[0].Footprint() + Frame(es[1..])
  }

  /** Only headers and paragraphs are read, never a document. */
  lemma {:induction false} FrameHoldsElementsOnly(es: seq<Element>)
    ensures forall o :: o in Frame(es) ==> o is Header || o is Paragraph
    decreases |es|
  {
    if es != [] {
      FrameHoldsElementsOnly(es[1..]);
    }
  }

  function Renders(es: seq<Element>): (r: seq<string>)
    reads Frame(es)
    ensures |r| == |es|
    decreases |es|
  {
    if es == [] then [] else [ElementString(es[0])] + Renders(es[1..])
  }

  lemma {:induction false} RendersSnoc(es: seq<Element>, e: Element)
    ensures Renders(es + [e]) == Renders(es) + [ElementString(e)]
    decreases |es|
  {
    if es == [] {
      assert [e][1..] == [];
    } else {
      assert (es + [e])[1..] == es[1..] + [e];
      RendersSnoc(es[1..], e);
    }
  }

  /** `_build_page`: the renders of the elements separated by a blank line.
      No elements give the empty page; one element gives exactly its render. */
  function Page(es: seq<Element>): (r: string)
    reads Frame(es)
    ensures es == [] ==> r == ""
    ensures |es| == 1 ==> r == ElementString(es[0])
  {
    Join(Renders(es), "\n\n")
  }

  /** Appending an element adds a blank line and its render at the end of
      the page, and leaves the page so far as a prefix. */
  lemma PageSnoc(es: seq<Element>, e: Element)
    requires es != []
    ensures Page(es + [e]) == Page(es) + "\n\n" + ElementString(e)
  {
    RendersSnoc(es, e);
    JoinSnoc(Renders(es), ElementString(e), "\n\n");
  }

  // ===========================================================================
  // File name
  // ===========================================================================

  /** Joining whitespace-free parts with a whitespace-free separator leaves
      no whitespace. */
  lemma NoSpaceJoin(parts: seq<string>, sep: string)
    requires forall k :: 0 <= k < |parts| ==> NoSpace(parts[k])
    requires NoSpace(sep)
    ensures NoSpace(Join(parts, sep))
  {
    var j := Join(parts, sep);
    forall i | 0 <= i < |j|
      ensures !IsSpace(j[i])
    {
      var c := j[i];
      JoinChars(parts, sep, c);
      if c in sep {
        var m :| 0 <= m < |sep| && sep[m] == c;
      } else {
        var k :| 0 <= k < |parts| && c in parts[k];
        var m :| 0 <= m < |parts[k]| && parts[k][m] == c;
      }
    }
  }

  /** `_get_file_name`: the whitespace-separated words of the name joined by
      hyphens, then the extension. The result ends in the extension and,
      for a whitespace-free extension, holds no whitespace at all. */
  function FileName(name: string, ext: string): (r: string)
    ensures |r| >= |ext| && r[|r| - |ext|..] == ext
    ensures NoSpace(ext) ==> NoSpace(r)
  {
    var stem := Join(Words(name), "-");
    WordsAreWords(name);
    NoSpaceJoin(Words(name), "-");
    stem + ext
  }

  /** Taking the hyphens back out of a file name gives the name without its
      whitespace, followed by the extension without hyphens, when the name
      itself holds no hyphen: the words survive in order, and nothing but
      hyphens is put between them. */
  lemma FileNameKeepsWords(name: string, ext: string)
    ensures '-' !in name ==> Remove(FileName(name, ext), '-') == NonSpace(name) + Remove(ext, '-')
  {
    if '-' !in name {
      var parts := Words(name);
      forall k | 0 <= k < |parts|
        ensures '-' !in parts[k]
      {
        if '-' in parts[k] {
          WordsChars(name, k, '-');
        }
      }
      RemoveJoinSep(parts, '-');
      WordsConcat(name);
      RemoveAppend(Join(parts, "-"), ext, '-');
    }
  }

  /** A run of whitespace between two parts that hold words becomes exactly
      one hyphen. */
  lemma FileNameHyphen(a: string, w: string, b: string, ext: string)
    requires Words(a) != [] && Words(b) != []
    requires w != [] && forall i :: 0 <= i < |w| ==> IsSpace(w[i])
    ensures FileName(a + w + b, ext) == Join(Words(a), "-") + "-" + Join(Words(b), "-") + ext
  {
    WordsAround(a, w, b);
    JoinAppend(Words(a), Words(b), "-");
  }

  /** Two words separated by one space are joined by one hyphen. */
  lemma FileNameTwoWords(a: string, b: string, ext: string)
    requires a != [] && NoSpace(a) && b != [] && NoSpace(b)
    ensures FileName(a + " " + b, ext) == a + "-" + b + ext
  {
    SingleWord(a);
    SingleWord(b);
    FileNameHyphen(a, " ", b, ext);
    assert Join([a], "-") == a && Join([b], "-") == b;
  }

  /** A document named `My Report` is saved as `My-Report.md`. */
  lemma FileNameExample(name: string)
    requires name == "My Report"
    ensures FileName(name, ".md") == "My-Report.md"
  {
    assert name == "My" + " " + "Report";
    FileNameTwoWords("My", "Report", ".md");
  }

  /** A name that is a single word is used as it is. */
  lemma FileNameOfWord(name: string, ext: string)
    requires name != [] && NoSpace(name)
    ensures FileName(name, ext) == name + ext
  {
    SingleWord(name);
  }

  // ===========================================================================
  // Table from a grid
  // ===========================================================================

  /** The body rows `add_table` keeps: the grid without its first row when
      that is the header, and without its last row when that is the footer.
      A grid too small to hold both leaves no body. */
  function GridBody(grid: seq<seq<string>>, header: bool, footer: bool): (body: seq<seq<string>>)
    requires grid != [] || (!header && !footer)
    ensures header && footer && |grid| >= 2 ==> [grid[0]] + body + [grid[|grid| - 1]] == grid
    ensures header && footer && |grid| < 2 ==> body == []
    ensures header && !footer ==> [grid[0]] + body == grid
    ensures !header && footer ==> body + [grid[|grid| - 1]] == grid
    ensures !header && !footer ==> body == grid
  {
    if header && footer then (if |grid| >= 2 then grid[1..|grid| - 1] else [])
    else if header then grid[1..]
    else if footer then grid[..|grid| - 1]
    else grid
  }

  /** Python's `grid[slice(*bounds)]`, with bounds `[1, -1]`, `[1, None]`,
      `[None, -1]` or `[None, None]`, picks exactly that body. */
  lemma GridSlice(grid: seq<seq<string>>, header: bool, footer: bool)
    requires grid != [] || (!header && !footer)
    ensures Slice(grid, if header then Some(1) else None, if footer then Some(-1) else None)
      == GridBody(grid, header, footer)
  {
  }

  function GridTable(grid: seq<seq<string>>, header: bool, footer: bool): Table
    requires grid != [] || (!header && !footer)
  {
    Table(
      if header then Some(grid[0]) else None,
      GridBody(grid, header, footer),
      if footer then Some(grid[|grid| - 1]) else None)
  }

  function TextItems(items: seq<string>): (r: seq<Item>)
    ensures |r| == |items|
    ensures forall i :: 0 <= i < |items| ==> r[i] == TextItem(InlineText(items[i]))
  {
    seq(|items|, i requires 0 <= i < |items| => TextItem(InlineText(items[i])))
  }

  // ===========================================================================
  // Document
  // ===========================================================================

  class Document {
    var name: string
    const ext: string := ".md"
    var contents: seq<Element>

    constructor (name: string)
      ensures this.name == name && contents == []
    {
      this.name := name;
      contents := [];
    }

    /** `_build_page`. */
    function BuildPage(): (r: string)
      reads this, Frame(contents)
      ensures contents == [] ==> r == ""
      ensures |contents| == 1 ==> r == ElementString(contents[0])
    {
      Page(contents)
    }

    /** `__str__`: the name on its own line, then the page. */
    function ToString(): (r: string)
      reads this, Frame(contents)
      ensures |r| == |name| + 1 + |BuildPage()|
      ensures r[..|name|] == name && r[|name|] == '\n' && r[|name| + 1..] == BuildPage()
      ensures contents == [] ==> r == name + "\n"
    {
      name + "\n" + BuildPage()
    }

    /** `_get_file_name`: the file name ends in `.md` and holds no
        whitespace. */
    function GetFileName(): (r: string)
      reads this
      ensures |r| >= 3 && r[|r| - 3..] == ".md"
      ensures NoSpace(r)
    {
      assert ext == ['.', 'm', 'd'];
      assert NoSpace(ext);
      FileName(name, ext)
    }

    /** Appends any element; the page grows by that element's render. */
    method AddElement(e: Element)
      modifies this
      ensures contents == old(contents) + [e] && name == old(name)
      ensures old(contents) != [] ==> BuildPage() == old(BuildPage()) + "\n\n" + ElementString(e)
      ensures old(contents) == [] ==> BuildPage() == ElementString(e)
    {
      FrameHoldsElementsOnly(contents);
      assert this !in Frame(contents);
      contents := contents + [e];
      if old(contents) != [] {
        PageSnoc(old(contents), e);
      }
    }

    /** Appends a header of the given level; a level outside 1..6 is
        refused and nothing is added. */
    method AddHeader(text: string, level: int := 1) returns (ok: bool)
      modifies this
      ensures ok == (1 <= level <= 6) && name == old(name)
      ensures !ok ==> contents == old(contents)
      ensures ok ==>
        && |contents| == |old(contents)| + 1
        && contents[..|old(contents)|] == old(contents)
        && var e := contents[|old(contents)|];
        && e.HeaderElement? && fresh(e.header)
        && e.header.text == InlineText(text) && e.header.level == level
    {
      ok := 1 <= level <= 6;
      if ok {
        var h := new Header(InlineText(text), level);
        contents := contents + [HeaderElement(h)];
      }
    }

    /** Appends a paragraph of one piece of plain text. */
    method AddParagraph(text: string)
      modifies this
      ensures name == old(name)
      ensures |contents| == |old(contents)| + 1
      ensures contents[..|old(contents)|] == old(contents)
      ensures var e := contents[|old(contents)|];
        && e.ParagraphElement? && fresh(e.paragraph)
        && e.paragraph.content == [InlineText(text)]
        && !e.paragraph.code && e.paragraph.lang == "generic" && !e.paragraph.quote
    {
      var p := new Paragraph([InlineText(text)]);
      contents := contents + [ParagraphElement(p)];
    }

    /** Appends an ordered list of plain-text items. */
    method AddOrderedList(items: seq<string>)
      modifies this
      ensures name == old(name)
      ensures contents == old(contents) + [ListElement(MDList(TextItems(items), true))]
    {
      contents := contents + [ListElement(MDList(TextItems(items), ordered := true))];
    }

    /** Appends an unordered list of plain-text items. */
    method AddUnorderedList(items: seq<string>)
      modifies this
      ensures name == old(name)
      ensures contents == old(contents) + [ListElement(MDList(TextItems(items), false))]
    {
      contents := contents + [ListElement(MDList(TextItems(items)))];
    }

    /** Appends a table cut from a grid: the first row as header and/or the
        last row as footer, the rows between as body. Asking for a header
        or a footer of an empty grid is an index error and adds nothing. */
    method AddTable(grid: seq<seq<string>>, header: bool := true, footer: bool := false) returns (ok: bool)
      modifies this
      ensures ok == (grid != [] || (!header && !footer)) && name == old(name)
      ensures ok ==> contents == old(contents) + [TableElement(GridTable(grid, header, footer))]
      ensures !ok ==> contents == old(contents)
    {
      ok := grid != [] || (!header && !footer);
      if !ok {
        return;
      }
      var head: Option<seq<string>> := None;
      var foot: Option<seq<string>> := None;
      var bounds: seq<Option<int>> := [None, None];
      if header {
        head := Some(grid[0]);
        bounds := bounds[0 := Some(1)];
      }
      if footer {
        foot := Some(grid[|grid| - 1]);
        bounds := bounds[1 := Some(-1)];
      }
      var body := Slice(grid, bounds[0], bounds[1]);
      GridSlice(grid, header, footer);
      contents := contents + [TableElement(Table(head, body, foot))];
    }

    /** Appends a code block in the given language. */
    method AddCode(code: string, lang: string := "generic")
      modifies this
      ensures name == old(name)
      ensures |contents| == |old(contents)| + 1
      ensures contents[..|old(contents)|] == old(contents)
      ensures var e := contents[|old(contents)|];
        && e.ParagraphElement? && fresh(e.paragraph)
        && e.paragraph.content == [InlineText(code)]
        && e.paragraph.code && e.paragraph.lang == lang && !e.paragraph.quote
    {
      var p := new Paragraph([InlineText(code)], code := true, lang := lang);
      contents := contents + [ParagraphElement(p)];
    }

    /** Appends a block quote of one piece of plain text. */
    method AddQuote(text: string)
      modifies this
      ensures name == old(name)
      ensures |contents| == |old(contents)| + 1
      ensures contents[..|old(contents)|] == old(contents)
      ensures var e := contents[|old(contents)|];
        && e.ParagraphElement? && fresh(e.paragraph)
        && e.paragraph.content == [InlineText(text)]
        && !e.paragraph.code && e.paragraph.lang == "generic" && e.paragraph.quote
    {
      var p := new Paragraph([InlineText(text)], quote := true);
      contents := contents + [ParagraphElement(p)];
    }
  }
}
