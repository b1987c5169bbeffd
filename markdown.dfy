/** The elements of a markdown document and the rule by which each one
    renders itself: styled inline text, headers, paragraphs, (nested) lists
    and tables. */
module Markdown {
  import opened PyStr

  // ===========================================================================
  // InlineText
  // ===========================================================================

  /** The smallest unit of styled text. `url == None` and `url == Some("")`
      both mean "no link", as both are false in a Python condition. */
  datatype InlineText = InlineText(
    text: string,
    url: Option<string> := None,
    bold: bool := false,
    italics: bool := false,
    code: bool := false,
    image: bool := false)

  predicate HasUrl(t: InlineText)
  {
    t.url.Some? && t.url.value != ""
  }

  /** The markdown for one piece of inline text. Styling is applied in a
      fixed order: bold (or else italics) innermost, then the link, then the
      image marker, and code outermost. */
  function InlineString(t: InlineText): (r: string)
    ensures |r| >= |t.text|
    ensures !t.bold && !t.italics && !t.code && !HasUrl(t) ==> r == t.text
    ensures t.code ==> |r| >= 2 && r[0] == '`' && r[|r| - 1] == '`'
    ensures HasUrl(t) ==>
      var k := if t.code then 1 else 0;
      |r| > k + 1 && (r[k] == '!' <==> t.image) && (t.image ==> r[k + 1] == '[')
  {
    var styled :=
      if t.bold then "**" + t.text + "**"
      else if t.italics then "*" + t.text + "*"
      else t.text;
    var linked := if HasUrl(t) then "[" + styled + "](" + t.url.value + ")" else styled;
    var shown := if HasUrl(t) && t.image then "!" + linked else linked;
    if t.code then "`" + shown + "`" else shown
  }

  /** Bold takes precedence: once `bold` is set, `italics` makes no difference. */
  lemma BoldWins(t: InlineText)
    requires t.bold
    ensures InlineString(t) == InlineString(t.(italics := !t.italics))
    ensures !t.code && !HasUrl(t) ==> InlineString(t) == "**" + t.text + "**"
  {
  }

  /** The image flag is invisible unless there is a link to show. */
  lemma ImageNeedsUrl(t: InlineText)
    requires !HasUrl(t)
    ensures InlineString(t) == InlineString(t.(image := !t.image))
  {
  }

  /** Code is the outermost wrapping: it puts one pair of backticks around
      whatever the other flags produce. */
  lemma CodeOutermost(t: InlineText)
    ensures InlineString(t.(code := true)) == "`" + InlineString(t.(code := false)) + "`"
  {
  }

  /** A link (or image) ends with its target in parentheses. */
  lemma LinkTarget(t: InlineText)
    requires HasUrl(t) && !t.code
    ensures var r := InlineString(t); var tail := "(" + t.url.value + ")";
      |r| >= |tail| && r[|r| - |tail|..] == tail
  {
  }

  /** An image is its link render preceded by `!`; the styled text sits
      unchanged inside the brackets. */
  lemma ImageWraps(t: InlineText)
    requires HasUrl(t) && t.image && !t.code
    ensures InlineString(t) == "!" + InlineString(t.(image := false))
  {
  }

  /** Italics alone wrap the text in single asterisks. */
  lemma ItalicsWraps(t: InlineText)
    requires !t.bold && t.italics && !t.code && !HasUrl(t)
    ensures InlineString(t) == "*" + t.text + "*"
  {
  }

  /** The brackets of a link hold the styled text, and the parentheses its
      target. */
  lemma LinkWraps(t: InlineText)
    requires HasUrl(t) && !t.code && !t.image
    ensures InlineString(t) == "[" + InlineString(t.(url := None)) + "](" + t.url.value + ")"
  {
  }

  // ===========================================================================
  // Header
  // ===========================================================================

  /** A header's markdown: `level` hash marks, a space, then the text.
      Python's `'#' * level` yields no marks when `level <= 0`. */
  function HeaderString(text: InlineText, level: int): (r: string)
    ensures level >= 0 ==>
      && |r| == level + 1 + |InlineString(text)|
      && (forall i :: 0 <= i < level ==> r[i] == '#')
      && r[level] == ' '
      && r[level + 1..] == InlineString(text)
    ensures level < 0 ==> r == " " + InlineString(text)
  {
    Repeat("#", level) + " " + InlineString(text)
  }

  /** The level after one promotion: one step towards 1, never past it. */
  function PromotedLevel(level: int): (r: int)
    ensures level > 1 ==> r == level - 1
    ensures level <= 1 ==> r == level
    ensures 1 <= level <= 6 ==> 1 <= r <= 6
  {
    if level > 1 then level - 1 else level
  }

  /** The level after one demotion: one step towards 6, never past it. */
  function DemotedLevel(level: int): (r: int)
    ensures level < 6 ==> r == level + 1
    ensures level >= 6 ==> r == level
    ensures 1 <= level <= 6 ==> 1 <= r <= 6
  {
    if level < 6 then level + 1 else level
  }

  /** Away from the bounds, promotion and demotion undo each other. */
  lemma PromoteDemoteInverse(level: int)
    ensures 1 < level <= 6 ==> DemotedLevel(PromotedLevel(level)) == level
    ensures 1 <= level < 6 ==> PromotedLevel(DemotedLevel(level)) == level
  {
  }

  /** Promoting `n` times in a row, as a caller looping without a bounds
      check would. */
  function PromotedTimes(level: int, n: nat): int
    decreases n
  {
    if n == 0 then level else PromotedTimes(PromotedLevel(level), n - 1)
  }

  /** Repeated promotion stops at level 1 and never errs. */
  lemma {:induction false} PromotedTimesFloor(level: int, n: nat)
    requires level >= 1
    ensures PromotedTimes(level, n) == if level - n >= 1 then level - n else 1
    decreases n
  {
    if n > 0 {
      PromotedTimesFloor(PromotedLevel(level), n - 1);
    }
  }

  class Header {
    var text: InlineText
    var level: int

    constructor (text: InlineText, level: int)
      ensures this.text == text && this.level == level
    {
      this.text := text;
      this.level := level;
    }

    /** `Header.__str__`. */
    function ToString(): (r: string)
      reads this
      ensures level >= 0 ==> |r| == level + 1 + |InlineString(text)| && r[level] == ' '
      ensures forall i :: 0 <= i < level ==> r[i] == '#'
      ensures level >= 0 ==> r[level + 1..] == InlineString(text)
    {
      HeaderString(text, level)
    }

    /** Moves the header one level up; silently stays at level 1. */
    method Promote()
      modifies this
      ensures level == PromotedLevel(old(level))
      ensures text == old(text)
    {
      if level > 1 {
        level := level - 1;
      }
    }

    /** Moves the header one level down; silently stays at level 6. */
    method Demote()
      modifies this
      ensures level == DemotedLevel(old(level))
      ensures text == old(text)
    {
      if level < 6 {
        level := level + 1;
      }
    }
  }

  // ===========================================================================
  // Paragraph
  // ===========================================================================

  function InlineStrings(content: seq<InlineText>): (r: seq<string>)
    ensures |r| == |content|
    ensures forall i :: 0 <= i < |content| ==> r[i] == InlineString(content[i])
  {
    seq(|content|, i requires 0 <= i < |content| => InlineString(content[i]))
  }

  /** The paragraph's text before any fencing or quoting: the renders of its
      pieces separated by single spaces. */
  function ParagraphBody(content: seq<InlineText>): string
  {
    Join(InlineStrings(content), " ")
  }

  /** A paragraph's markdown. A code fence takes priority over a quote. */
  function ParagraphString(content: seq<InlineText>, code: bool, lang: string, quote: bool): (r: string)
    ensures |r| == |ParagraphBody(content)| + (if code then |lang| + 8 else if quote then 2 else 0)
  {
    var body := ParagraphBody(content);
    if code then "```" + lang + "\n" + body + "\n```"
    else if quote then "> " + body
    else body
  }

  /** With `code` set the paragraph is a fenced block tagged with `lang`,
      whatever `quote` says; otherwise `quote` prefixes `> `; otherwise the
      text stands as it is. */
  lemma ParagraphLayout(content: seq<InlineText>, code: bool, lang: string, quote: bool)
    ensures var r := ParagraphString(content, code, lang, quote);
      var body := ParagraphBody(content);
      && (code ==> r == ParagraphString(content, code, lang, !quote))
      && (code ==> r[..4 + |lang|] == "```" + lang + "\n" && r[4 + |lang|..] == body + "\n```")
      && (!code && quote ==> r == "> " + body)
      && (!code && !quote ==> r == body)
  {
  }

  /** A one-piece paragraph is that piece's render. */
  lemma ParagraphSingle(t: InlineText)
    ensures ParagraphBody([t]) == InlineString(t)
  {
  }

  /** Adding a piece extends the paragraph's text by one space and that
      piece's render, leaving the text so far as a prefix. */
  lemma {:induction false} ParagraphAddExtends(content: seq<InlineText>, t: InlineText)
    requires content != []
    ensures ParagraphBody(content + [t]) == ParagraphBody(content) + " " + InlineString(t)
  {
    assert InlineStrings(content + [t]) == InlineStrings(content) + [InlineString(t)];
    JoinSnoc(InlineStrings(content), InlineString(t), " ");
  }

  class Paragraph {
    var content: seq<InlineText>
    var code: bool
    var lang: string
    var quote: bool

    constructor (content: seq<InlineText>, code: bool := false, lang: string := "generic", quote: bool := false)
      ensures this.content == content && this.code == code && this.lang == lang && this.quote == quote
    {
      this.content := content;
      this.code := code;
      this.lang := lang;
      this.quote := quote;
    }

    /** `Paragraph.__str__`. */
    function ToString(): (r: string)
      reads this
      ensures code ==> |r| >= 3 && r[..3] == "```"
      ensures !code && quote ==> |r| >= 2 && r[..2] == "> "
      ensures !code && !quote ==> r == ParagraphBody(content)
    {
      ParagraphString(content, code, lang, quote)
    }

    /** Appends one piece of text at the end; nothing else changes. */
    method Add(t: InlineText)
      modifies this
      ensures content == old(content) + [t]
      ensures code == old(code) && lang == old(lang) && quote == old(quote)
    {
      content := content + [t];
    }
  }

  // ===========================================================================
  // MDList
  // ===========================================================================

  /** An entry of a list: a piece of text or a nested list. */
  datatype Item = TextItem(text: InlineText) | ListItem(list: MDList)

  /** A (possibly nested) list. Its depth is not stored: it is handed down
      while rendering, 0 for a top-level list and one more per nesting. */
  datatype MDList = MDList(items: seq<Item>, ordered: bool := false)

  /** Two spaces per level of nesting. */
  function Indent(depth: nat): (r: string)
    ensures |r| == 2 * depth
    ensures forall i :: 0 <= i < |r| ==> r[i] == ' '
  {
    Repeat("  ", depth)
  }

  /** `k. ` in an ordered list, `- ` otherwise. */
  function Marker(ordered: bool, ordinal: nat): string
  {
    if ordered then DecimalString(ordinal) + ". " else "- "
  }

  /** What the item at position `j` contributes: a nested list renders as
      a whole block one level deeper, a piece of text as one line whose
      ordinal is its 1-based position among ALL items. */
  function Entry(l: MDList, depth: nat, j: nat): string
    requires j < |l.items|
    decreases l, 0
  {
    match l.items[j]
    case ListItem(sub) => ListString(sub, depth + 1)
    case TextItem(t) => Indent(depth) + Marker(l.ordered, j + 1) + InlineString(t)
  }

  /** The entries of the items from position `k` on. */
  function EntriesFrom(l: MDList, depth: nat, k: nat): (r: seq<string>)
    requires k <= |l.items|
    ensures |r| == |l.items| - k
    decreases l, |l.items| - k
  {
    if k == |l.items| then [] else [Entry(l, depth, k)] + EntriesFrom(l, depth, k + 1)
  }

  /** A list's markdown: its entries, one per item, separated by newlines. */
  function ListString(l: MDList, depth: nat): (r: string)
    ensures l.items == [] ==> r == ""
    ensures |l.items| == 1 ==> r == Entry(l, depth, 0)
    decreases l, |l.items| + 1
  {
    Join(EntriesFrom(l, depth, 0), "\n")
  }

  lemma {:induction false} EntriesFromAt(l: MDList, depth: nat, k: nat)
    requires k <= |l.items|
    ensures forall j :: k <= j < |l.items| ==> EntriesFrom(l, depth, k)[j - k] == Entry(l, depth, j)
    decreases |l.items| - k
  {
    if k < |l.items| {
      EntriesFromAt(l, depth, k + 1);
    }
  }

  /** Item `j` of a list at depth `depth` renders as: for text, `2*depth`
      spaces, then `j+1. ` (ordered) or `- ` (unordered), then the text;
      for a nested list, that list rendered at `depth + 1`. */
  lemma ListEntries(l: MDList, depth: nat)
    ensures |EntriesFrom(l, depth, 0)| == |l.items|
    ensures forall j :: 0 <= j < |l.items| && l.items[j].TextItem? ==>
      EntriesFrom(l, depth, 0)[j] == Indent(depth) + Marker(l.ordered, j + 1) + InlineString(l.items[j].text)
    ensures forall j :: 0 <= j < |l.items| && l.items[j].ListItem? ==>
      EntriesFrom(l, depth, 0)[j] == ListString(l.items[j].list, depth + 1)
  {
    EntriesFromAt(l, depth, 0);
    assert forall j :: 0 <= j < |l.items| ==> EntriesFrom(l, depth, 0)[j] == Entry(l, depth, j);
  }

  /** In an ordered list the numeral written before item `j` reads back as
      `j + 1`, whether or not nested lists come before it. */
  lemma OrderedOrdinal(l: MDList, depth: nat, j: nat)
    requires l.ordered && j < |l.items| && l.items[j].TextItem?
    ensures var num := DecimalString(j + 1);
      && EntriesFrom(l, depth, 0)[j] == Indent(depth) + num + ". " + InlineString(l.items[j].text)
      && ParseDecimal(num) == j + 1
  {
    ListEntries(l, depth);
    DecimalRoundTrip(j + 1);
  }

  /** `MDList.__str__`: one pass over the items with
      a 1-based counter that also advances past nested lists, each nested
      list rendered at this depth plus one. */
  method RenderList(l: MDList, depth: nat) returns (s: string)
    ensures s == ListString(l, depth)
    decreases l
  {
    var output: seq<string> := [];
    var i := 1;
    while i <= |l.items|
      invariant 1 <= i <= |l.items| + 1
      invariant output + EntriesFrom(l, depth, i - 1) == EntriesFrom(l, depth, 0)
    {
      var item := l.items[i - 1];
      var line: string;
      if item.ListItem? {
        line := RenderList(item.list, depth + 1);
      } else if l.ordered {
        line := Indent(depth) + DecimalString(i) + ". " + InlineString(item.text);
      } else {
        line := Indent(depth) + "- " + InlineString(item.text);
      }
      assert line == Entry(l, depth, i - 1);
      assert EntriesFrom(l, depth, i - 1) == [line] + EntriesFrom(l, depth, i);
      assert (output + [line]) + EntriesFrom(l, depth, i) == output + EntriesFrom(l, depth, i - 1);
      output := output + [line];
      i := i + 1;
    }
    assert EntriesFrom(l, depth, i - 1) == [];
    assert output == EntriesFrom(l, depth, 0);
    s := Join(output, "\n");
  }

  // ===========================================================================
  // Table
  // ===========================================================================

  /** A table of string cells. A header or footer that is `None` or empty is
      not drawn; `verify` still tells `None` apart, as `len(None)` fails. */
  datatype Table = Table(header: Option<seq<string>>, body: seq<seq<string>>, footer: Option<seq<string>> := None)

  predicate Shown(cells: Option<seq<string>>)
  {
    cells.Some? && cells.value != []
  }

  function Row(cells: seq<string>): string
  {
    Join(cells, " | ")
  }

  /** One `-` per cell, separated like a row. */
  function DashRow(cells: seq<string>): string
  {
    Join(seq(|cells|, _ => "-"), " | ")
  }

  function HeaderRows(t: Table): seq<string>
  {
    if Shown(t.header) then [Row(t.header.value), DashRow(t.header.value)] else []
  }

  function BodyRows(body: seq<seq<string>>): (rows: seq<string>)
    ensures |rows| == |body|
    ensures forall i :: 0 <= i < |body| ==> rows[i] == Row(body[i])
  {
    seq(|body|, i requires 0 <= i < |body| => Row(body[i]))
  }

  function FooterRows(t: Table): seq<string>
  {
    if Shown(t.footer) then [DashRow(t.footer.value), Row(t.footer.value)] else []
  }

  function TableRows(t: Table): seq<string>
  {
    HeaderRows(t) + BodyRows(t.body) + FooterRows(t)
  }

  /** A table's markdown: its rows separated by newlines. */
  function TableString(t: Table): (r: string)
    ensures !Shown(t.header) && t.body == [] && !Shown(t.footer) ==> r == ""
    ensures Shown(t.header) ==> |r| >= |Row(t.header.value)| && r[..|Row(t.header.value)|] == Row(t.header.value)
  {
    Join(TableRows(t), "\n")
  }

  /** The rows of a table: header and dashes when a header is shown, one row
      per body row, dashes and footer when a footer is shown. */
  lemma TableLayout(t: Table)
    ensures var rows := TableRows(t);
      var h := if Shown(t.header) then 2 else 0;
      && |rows| == h + |t.body| + (if Shown(t.footer) then 2 else 0)
      && (Shown(t.header) ==> rows[0] == Row(t.header.value) && rows[1] == DashRow(t.header.value))
      && (forall i :: 0 <= i < |t.body| ==> rows[h + i] == Row(t.body[i]))
      && (Shown(t.footer) ==>
            rows[|rows| - 2] == DashRow(t.footer.value) && rows[|rows| - 1] == Row(t.footer.value))
  {
  }

  /** A two-column table with a header and two body rows. */
  lemma TableExample()
    ensures TableString(Table(Some(["A", "B"]), [["1", "2"], ["3", "4"]], None)) == "A | B\n- | -\n1 | 2\n3 | 4"
  {
    ExampleRows();
    ExampleJoin();
  }

  lemma ExampleRows()
    ensures TableRows(Table(Some(["A", "B"]), [["1", "2"], ["3", "4"]], None)) == ["A | B", "- | -", "1 | 2", "3 | 4"]
  {
    assert Row(["A", "B"]) == "A | B";
    assert |["A", "B"]| == 2;
    assert seq(|["A", "B"]|, _ => "-") == ["-", "-"];
    assert ["-", "-"][1..] == ["-"];
    assert DashRow(["A", "B"]) == Join(["-", "-"], " | ") == "- | -";
    assert Row(["1", "2"]) == "1 | 2";
    assert Row(["3", "4"]) == "3 | 4";
  }

  lemma ExampleJoin()
    ensures Join(["A | B", "- | -", "1 | 2", "3 | 4"], "\n") == "A | B\n- | -\n1 | 2\n3 | 4"
  {
    var rows := ["A | B", "- | -", "1 | 2", "3 | 4"];
    assert rows[1..] == ["- | -", "1 | 2", "3 | 4"];
    assert rows[1..][1..] == ["1 | 2", "3 | 4"];
    assert rows[1..][1..][1..] == ["3 | 4"];
    assert Join(rows[1..][1..], "\n") == "1 | 2\n3 | 4";
  }

  /** `Table.__str__`: collects the rows in a list, then joins them. */
  method RenderTable(t: Table) returns (s: string)
    ensures s == TableString(t)
  {
    var rows: seq<string> := [];
    if Shown(t.header) {
      rows := rows + [Row(t.header.value)];
      rows := rows + [DashRow(t.header.value)];
    }
    var k := 0;
    while k < |t.body|
      invariant 0 <= k <= |t.body|
      invariant rows == HeaderRows(t) + BodyRows(t.body[..k])
    {
      assert BodyRows(t.body[..k + 1]) == BodyRows(t.body[..k]) + [Row(t.body[k])];
      rows := rows + [Row(t.body[k])];
      k := k + 1;
    }
    assert t.body[..k] == t.body;
    if Shown(t.footer) {
      rows := rows + [DashRow(t.footer.value)];
      rows := rows + [Row(t.footer.value)];
    }
    assert rows == TableRows(t);
    s := Join(rows, "\n");
  }

  predicate Uniform(body: seq<seq<string>>)
  {
    forall i, j :: 0 <= i < |body| && 0 <= j < |body| ==> |body[i]| == |body[j]|
  }

  /** The set of row widths has exactly one member exactly when there is at
      least one row and all rows are equally wide. */
  lemma {:induction false} SingleWidth(body: seq<seq<string>>)
    ensures |(set row | row in body :: |row|)| == 1 <==> body != [] && Uniform(body)
  {
    var widths := set row | row in body :: |row|;
    if body != [] && Uniform(body) {
      forall v | v in widths
        ensures v == |body[0]|
      {
        var row :| row in body && |row| == v;
        var k :| 0 <= k < |body| && body[k] == row;
      }
      assert |body[0]| in widths;
      assert widths == {|body[0]|};
    }
    if |widths| == 1 {
      var v :| v in widths;
      assert |widths - {v}| == 0;
      assert widths == {v};
      var row :| row in body && |row| == v;
      forall i, j | 0 <= i < |body| && 0 <= j < |body|
        ensures |body[i]| == |body[j]|
      {
        assert |body[i]| in widths && |body[j]| in widths;
      }
    }
  }

  /** `Table.verify`: there is at least one body row, all body rows are
      equally wide, and a header and a footer both exist with that same
      width. Every failed assertion, and `len(None)`, is a `false` here. */
  function Verify(t: Table): (ok: bool)
    ensures ok <==>
      && t.body != []
      && Uniform(t.body)
      && t.header.Some? && t.footer.Some?
      && |t.header.value| == |t.body[0]|
      && |t.footer.value| == |t.body[0]|
  {
    var widths := set row | row in t.body :: |row|;
    SingleWidth(t.body);
    |widths| == 1 && t.header.Some? && t.footer.Some?
    && |t.header.value| == |t.footer.value| == |t.body[0]|
  }

  /** The check `Table.verify` is meant to make: body rows agree in width,
      and a header or footer, where there is one, has that width too. */
  function VerifyWhenPresent(t: Table): (ok: bool)
    ensures ok <==>
      && t.body != []
      && Uniform(t.body)
      && (t.header.Some? ==> |t.header.value| == |t.body[0]|)
      && (t.footer.Some? ==> |t.footer.value| == |t.body[0]|)
    ensures Verify(t) ==> ok
  {
    var widths := set row | row in t.body :: |row|;
    SingleWidth(t.body);
    |widths| == 1
    && (t.header.None? || |t.header.value| == |t.body[0]|)
    && (t.footer.None? || |t.footer.value| == |t.body[0]|)
  }

  /** A well-formed table without a footer (what `add_table` builds by
      default) fails `verify` as written, because `len(None)` raises, but
      passes the check as intended. */
  lemma VerifyRejectsFooterless()
    ensures var t := Table(Some(["A"]), [["1"]], None);
      !Verify(t) && VerifyWhenPresent(t)
  {
    var t := Table(Some(["A"]), [["1"]], None);
    assert Uniform(t.body);
  }

  // ===========================================================================
  // Element
  // ===========================================================================

  /** A standalone block of a document. Headers and paragraphs are objects
      that may still change after they are added; lists and tables are
      values. */
  datatype Element =
    | HeaderElement(header: Header)
    | ParagraphElement(paragraph: Paragraph)
    | ListElement(list: MDList)
    | TableElement(table: Table)
  {
    /** The objects whose fields the element's render reads. */
    function Footprint(): set<object>
    {
      match this
      case HeaderElement(h) => {h}
      case ParagraphElement(p) => {p}
      case _ => {}
    }
  }

  /** `str(element)`: each kind renders itself; a list starts at depth 0. */
  function ElementString(e: Element): (r: string)
    reads e.Footprint()
    ensures e.HeaderElement? && e.header.level >= 0 ==>
      |r| == e.header.level + 1 + |InlineString(e.header.text)| && r[e.header.level] == ' '
    ensures e.ListElement? ==> r == ListString(e.list, 0)
    ensures e.TableElement? ==> r == TableString(e.table)
  {
    match e
    case HeaderElement(h) => h.ToString()
    case ParagraphElement(p) => p.ToString()
    case ListElement(l) => ListString(l, 0)
    case TableElement(t) => TableString(t)
  }
}
