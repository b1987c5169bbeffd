# SnakeMD markdown builder, modelled in Dafny

This project models `markdown.py` of SnakeMD, a library for building markdown documents. The library has styled inline text (`InlineText`) and four kinds of block element (`Header`, `Paragraph`, `MDList`, `Table`). Each element renders itself to a markdown string. A `Document` collects elements in order and renders them as one page.

Files:

- `pystr.dfy`, module `PyStr`: the Python built-ins that `markdown.py` relies on, with CPython's semantics. These are `None`, `sep.join`, `s * n` (which gives `""` for `n <= 0`), `str(n)`, `str.isspace`, `str.split()` and slicing with negative and omitted bounds.
- `markdown.dfy`, module `Markdown`: the elements.
  - `InlineText` is a datatype, because `markdown.py` never updates it.
  - `Header` and `Paragraph` are classes, because `promote`, `demote` and `add` update their fields in place.
  - A list is a tree of datatype values. A table is a datatype value whose cells are strings.
  - The list and table renders are methods with loops, like the `__str__` methods of `markdown.py`. Each is proved equal to a specification function.
- `document.dfy`, module `Documents`: the `Document` class.
  - `contents` is a `seq<Element>` that every `add_*` method extends at the end.
  - The class also has the page render, `__str__`, the file name and the grid slicing of `add_table`.
  - An `Element` holds a header or paragraph by reference. So a header promoted after it was added shows its new level on the page, as it does in Python.

Behaviours of `markdown.py` worth knowing:

- A `Header` constructed directly is not clamped to levels 1..6. It renders `level` hash marks, or none when `level <= 0`. Promote and demote only step towards the bounds.
- `Table.verify` also fails on an empty body. It also fails when the header or the footer is `None`: see Findings.
- `add_table` with both a header and a footer on a grid of one or two rows has an empty body. On a one-row grid that row is both the header and the footer (`GridBody`).
- The ordinal of an ordered list counts every item, nested lists included. A nested list that is empty still contributes an empty line.

## Model

| member | source | states |
|---|---|---|
| `Markdown.InlineString` | markdown.py:47-64 | with no style and no link the render is the raw text; code puts backticks first and last; with a link, `!` comes first (inside any backticks) exactly when `image` is set, and is then followed by `[` |
| `Markdown.BoldWins` | markdown.py:54-57 | once `bold` is set, `italics` changes nothing; plain bold text renders as `**text**` |
| `Markdown.ImageNeedsUrl` | markdown.py:58-61 | without a non-empty url, the image flag does not change the render |
| `Markdown.CodeOutermost` | markdown.py:62-63 | setting `code` wraps the render of every other flag in one pair of backticks |
| `Markdown.LinkTarget` | markdown.py:58-59 | a linked render (not code) ends with `(url)` |
| `Markdown.ImageWraps` | markdown.py:60-61 | an image (not code) is `!` followed by the full link render, styled text included |
| `Markdown.ItalicsWraps` | markdown.py:56-57 | italics alone, without bold, code or link, render as `*text*` |
| `Markdown.LinkWraps` | markdown.py:58-59 | a link (not code, not image) renders as `[`, the styled text without the link, `](`, the url, `)` |
| `Markdown.HeaderString` | markdown.py:117-123 | a header renders as exactly `level` `#` marks, one space, then the text's render; no marks when `level` is negative |
| `Markdown.Header.ToString` | markdown.py:117-123 | the header's render is `level` `#` marks, a space, then the text's render (by `HeaderString`) |
| `Markdown.PromotedLevel` | markdown.py:125-133 | promote lowers the level by one above 1, is a no-op at 1 or below, and keeps a level in [1,6] in [1,6] |
| `Markdown.DemotedLevel` | markdown.py:135-141 | demote raises the level by one below 6, is a no-op at 6 or above, and keeps a level in [1,6] in [1,6] |
| `Markdown.PromoteDemoteInverse` | markdown.py:125-141 | away from the bound they move towards, promote and demote undo each other |
| `Markdown.PromotedTimesFloor` | markdown.py:125-133 | promoting `n` times from level >= 1 gives `max(1, level - n)`, so it never errs and stops at 1 |
| `Markdown.Header.constructor` | markdown.py:112-115 | a header stores its text and its level unchecked |
| `Markdown.Header.Promote` | markdown.py:125-133 | the new level is the promoted old level, and the text is unchanged |
| `Markdown.Header.Demote` | markdown.py:135-141 | the new level is the demoted old level, and the text is unchanged |
| `Markdown.ParagraphString` | markdown.py:157-164 | the render is the body plus a fixed overhead: `lang` and 8 fence characters for code, 2 for a quote, none otherwise; specified by `ParagraphLayout` |
| `Markdown.Paragraph.ToString` | markdown.py:157-164 | a code paragraph opens with a fence, a quote with `> `, and a plain paragraph is its body |
| `Markdown.ParagraphLayout` | markdown.py:157-164 | with `code` the render is a fence tagged with `lang` around the text, whatever `quote` is; otherwise `quote` prefixes `> `; otherwise the text stands alone |
| `Markdown.ParagraphSingle` | markdown.py:158 | a one-piece paragraph's text is that piece's render |
| `Markdown.ParagraphAddExtends` | markdown.py:158-167 | adding a piece extends the text by one space and the piece's render, keeping the old text as a prefix |
| `Markdown.Paragraph.constructor` | markdown.py:150-155 | the default paragraph is neither code nor quote, with language `generic` |
| `Markdown.Paragraph.Add` | markdown.py:166-167 | appends exactly one piece at the end; the earlier pieces and the flags are unchanged |
| `Markdown.Indent` | markdown.py:186 | the indent is `2*depth` spaces |
| `Markdown.ListEntries` | markdown.py:177-190 | item `j` gives either `2*depth` spaces, then `j+1. ` or `- `, then the text; or the nested list rendered at `depth + 1` |
| `Markdown.OrderedOrdinal` | markdown.py:179-189 | in an ordered list, the numeral before item `j` reads back as `j + 1`, even when nested lists come before it |
| `Markdown.ListString` | markdown.py:177-190 | an empty list renders as `""` and a one-item list as that item's entry; specified entry by entry by `ListEntries` and `OrderedOrdinal` |
| `Markdown.RenderList` | markdown.py:177-190 | the loop with its counter and its recursive nested renders computes exactly the list's specified render |
| `Markdown.TableLayout` | markdown.py:200-209 | a shown header gives a cell row and then a dash row; each body row gives one row; a shown footer gives a dash row and then the footer row; the row count is the number of body rows plus 2 per shown header or footer |
| `Markdown.TableExample` | markdown.py:200-209 | the header `A, B` with body rows `1, 2` and `3, 4` renders as exactly four lines: the header cells, one dash per header cell, then the two body rows, with the cells of each line separated by a spaced vertical bar |
| `Markdown.TableString` | markdown.py:200-209 | a table with nothing to show renders as `""`, and a shown header row comes first; specified row by row by `TableLayout` |
| `Markdown.RenderTable` | markdown.py:200-209 | the loop that collects rows computes exactly the table's specified render |
| `Markdown.SingleWidth` | markdown.py:212 | the set of row widths has one member exactly when the body is non-empty and all rows are equally wide |
| `Markdown.Verify` | markdown.py:211-213 | verify passes exactly when the body is non-empty and uniform, and a header and a footer both exist with the first row's width |
| `Markdown.VerifyWhenPresent` | markdown.py:211-213 | the intended check: a uniform non-empty body, and a header or footer matches its width only where it exists; it accepts all that `Verify` accepts |
| `Markdown.VerifyRejectsFooterless` | markdown.py:211-213 | a one-column table with a header and no footer fails `Verify` but passes `VerifyWhenPresent` |
| `Markdown.ElementString` | markdown.py:317 | `str(element)`: a header shows its marks then a space, a list renders at depth 0, and a table as its table render |
| `PyStr.JoinSnoc` | markdown.py:317 | joining one more part adds one separator and that part at the end |
| `PyStr.Repeat` | markdown.py:123 | `s * n` is `n` times as long as `s` (empty when `n <= 0`) and holds only characters of `s` |
| `PyStr.DecimalString` | markdown.py:186 | `str(n)` is a non-empty string of digits with no leading zero |
| `PyStr.DecimalRoundTrip` | markdown.py:186 | reading back `str(n)` gives `n` |
| `PyStr.WordsAreWords` | markdown.py:321 | every word of `split()` is non-empty and has no whitespace |
| `PyStr.WordsConcat` | markdown.py:321 | the words of `split()`, concatenated, are the string with its whitespace removed |
| `PyStr.WordsSplit` | markdown.py:321 | a whitespace character splits the string: the words are those of the part before it followed by those of the part after it |
| `PyStr.SingleWord` | markdown.py:321 | a non-empty string without whitespace is one word, so words are maximal runs |
| `PyStr.Slice` | markdown.py:289 | a slice is no longer than the sequence, and `[None:None]` is the whole sequence |
| `Documents.Page` | markdown.py:316-317 | an empty document's page is `""` and a one-element page is exactly that element's render |
| `Documents.PageSnoc` | markdown.py:316-317 | appending an element extends the page by a blank line and the element's render |
| `Documents.FileName` | markdown.py:319-322 | the file name ends with the extension and holds no whitespace |
| `Documents.FileNameKeepsWords` | markdown.py:319-322 | for a name without hyphens, removing the hyphens from the file name gives the name without its whitespace, then the extension: the words survive in order and only hyphens are put between them |
| `Documents.FileNameHyphen` | markdown.py:319-322 | a run of whitespace between two parts that hold words becomes exactly one hyphen between their file-name stems |
| `Documents.FileNameTwoWords` | markdown.py:319-322 | two whitespace-free words separated by one space are saved as the words joined by one hyphen, then the extension |
| `Documents.FileNameExample` | markdown.py:319-322 | the document `My Report` is saved as `My-Report.md` |
| `Documents.FileNameOfWord` | markdown.py:319-322 | a one-word name is used as it is, followed by the extension |
| `Documents.GridBody` | markdown.py:278-291 | the body is the grid minus its first row (header), minus its last row (footer), or minus both; a grid of fewer than two rows with both flags leaves no body |
| `Documents.GridSlice` | markdown.py:280-289 | the Python slice `grid[slice(*bounds)]` with the bounds `add_table` builds is exactly `GridBody` |
| `Documents.Document.constructor` | markdown.py:218-221 | a new document has its name and no contents |
| `Documents.Document.GetFileName` | markdown.py:319-322 | the document's file name ends in `.md` and holds no whitespace |
| `Documents.Document.BuildPage` | markdown.py:316-317 | an empty document's page is `""` and a one-element page is that element's render; growth is stated by `AddElement` |
| `Documents.Document.ToString` | markdown.py:223-224 | the name, a newline, then the page; just `name\n` for an empty document |
| `Documents.Document.AddElement` | markdown.py:226-235 | appends the element at the end; the page grows by a blank line and its render, or becomes that render |
| `Documents.Document.AddHeader` | markdown.py:237-245 | fails and adds nothing when the level is outside 1..6; otherwise appends one fresh header with that text and level, keeping the earlier elements |
| `Documents.Document.AddParagraph` | markdown.py:247-253 | appends one fresh plain paragraph of the text, keeping the earlier elements |
| `Documents.Document.AddOrderedList` | markdown.py:255-262 | appends one ordered list of the items as plain text |
| `Documents.Document.AddUnorderedList` | markdown.py:264-270 | appends one unordered list of the items as plain text |
| `Documents.Document.AddTable` | markdown.py:272-291 | fails and adds nothing when a header or footer is asked of an empty grid; otherwise appends the table with `grid[0]` as header, `grid[-1]` as footer and `GridBody` as body |
| `Documents.Document.AddCode` | markdown.py:293-300 | appends one fresh code paragraph in the given language, keeping the earlier elements |
| `Documents.Document.AddQuote` | markdown.py:302-308 | appends one fresh quote paragraph of the text, keeping the earlier elements |

## Left out

- `InlineText._verify_link` and `InlineText.verify` (markdown.py:66-82) send an HTTP HEAD request. That is network I/O, so they are not modelled.
- `Document.output_page` (markdown.py:310-314) creates a directory and writes a file. That is filesystem I/O. Its two inputs, `_get_file_name` and `_build_page`, are modelled.
- The `Element` base class and its `NotImplementedError` stubs (markdown.py:88-102) are not modelled. The same goes for the `isinstance` check in `add_element`. The `Element` datatype admits only the four element kinds, so that check cannot fail.
- The escaping of special characters is only a TODO in the source (markdown.py:84-85), so it is not modelled.
- The `depth` field of a nested list is not stored. It is passed down while rendering. Python writes it into the nested list object, and it stays there. So a list object that is rendered inside another list and also used elsewhere would render indented in Python but not here.
- `add_ordered_list` and `add_unordered_list` give the list a generator, which Python can use up only once. A second render of the same document would show those lists empty. Here items are a sequence, so every render is the same.
- `Paragraph`, `MDList` and `Table` keep the caller's own Python lists (markdown.py:152, 173, 196-198). A caller's later `append` to such a list changes the element and the rendered page in Python. Here the pieces, items and rows are sequence values, so that sharing is not modelled. `Paragraph.add` appending to the shared list is modelled only as a change to the paragraph.
- Table cells are strings, as `add_table` supplies them, not `InlineText`. `' | '.join` accepts only strings.
- Exceptions become a `false` result, or an `ok` of `false` with nothing appended. This covers three sources: Python `assert` statements (markdown.py:212-213, 243); the IndexError of `grid[0]` or `grid[-1]` on an empty grid in `add_table` (markdown.py:283, 286); and the TypeError of `len(None)` in `verify` (markdown.py:213). Running Python with `-O` removes the asserts, and that is not modelled.
- Rendering is not a method of a common `Element` type, because traits are not used. `ElementString` dispatches on the element kind instead.

## Findings

| source | as written | input that shows it | evidently intended | confidence | as-written member | corrected member |
|---|---|---|---|---|---|---|
| markdown.py:213 | `len(self.header) == len(self.footer) == len(self.body[0])` raises when the header or footer is `None`, so `verify` fails on any table without a footer. That includes every table `add_table` builds by default. | `Table(["A"], [["1"]]).verify()` | a header or footer is compared with the body width only when it exists | medium, not executed | `Markdown.VerifyRejectsFooterless` | `Markdown.VerifyWhenPresent` |
