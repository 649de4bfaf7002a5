# Market widget rows and section blocks, in Dafny

The widget page shows market and macro figures as coloured rows in two-column
boxes. This project models the two routines that build that HTML:

- `get_row_html(label, value, change_str)` picks a colour from the change
  string by a textual test. Any `+` gives red (`#ff4b4b`), even when a `-` is
  present too. Otherwise any `-` gives blue (`#4b88ff`). A string with neither
  sign gives gray (`#888888`), and its text is replaced by the placeholder
  `0.00%`. The routine then fills a fixed HTML fragment with the label, the
  coloured change and the value. Nothing is escaped.
- `render_section_block(title, left_data, right_data)` appends one row per
  `(label, value, change)` triple, in list order, into a left and a right
  column. It then fills a box template with the title, a fixed date stamp and
  the two columns.

The model has four modules: one per routine, a helper module and a module of
concrete examples:

- `Row` (row.dfy) models `get_row_html`. `Colour` and `Hex` model the three
  colours. `Classify` models the sign test, and `Shown` models the placeholder
  substitution. `ViewOf` models the classified row, and `Fragment` and `RowHtml`
  model the row template. `RowHtmlLayout` states where each argument ends up
  in the row.
- `Section` (section.dfy) models `render_section_block`. `Column` is the fold
  that the `+=` loop computes, and `Box` and `SectionHtml` model the box
  template. `SectionLayout` states where the title and the two columns end up
  in the box. `RenderSectionBlock` is the routine itself, with its two loops.
  It returns the text instead of handing it to the page.
- `Text` (text.dfy) holds generic facts about joining, slicing and splitting
  strings.
- `WidgetExamples` (widget_examples.dfy) states what the model gives for a few
  concrete rows.

`Row.ParseRow` is an independent inverse of the row template. It reads a row
back into its label, colour, change and value. It is proved to be an exact
inverse for rows whose texts hold no `<`. Four of the rows in
`WidgetExamples` come from the page's data lists (widget.py:187-222). The other
two, `BothSignsIsRed` and `UnsignedChangeIsReplaced`, use made-up changes,
because no row of those lists has both signs or an unsigned change other than
`0.00%`.

Python's `"+" in change_str` is a substring test with a one-character needle,
so it holds exactly when the character occurs; the model writes it as
`'+' in change`.

The templates keep the exact text of the source's f-strings, including the
line breaks and indentation. The source file has CRLF line endings. Python
reads them as `\n` inside a string literal, so the model uses `\n`.

The classification follows the code, not a numeric reading of the change.
widget.py computes no numbers: every figure on the page is a literal,
preformatted string, and the colour comes from the text alone. So `"-0.00"` and a bare
`"-"` are blue, not neutral. The model keeps that behaviour.

## Model

| member | source | states |
|---|---|---|
| `Row.Hex` | widget.py:79-84 | each colour's code is a seven-character string starting with `#` |
| `Row.HexDigits` | widget.py:79-84 | after the `#`, each colour's code holds six lower-case hexadecimal digits |
| `Row.ColourOfHex` | widget.py:94 | reads a colour code from a row's style back into its colour; whatever it accepts is the code of the colour it returns |
| `Row.Classify` | widget.py:79-84 | red exactly when the change contains `+`, whatever else it contains; blue exactly when it contains `-` and no `+`; gray exactly when it contains neither |
| `Row.Shown` | widget.py:79-85 | a change with either sign is displayed unchanged; one with neither sign is displayed as `0.00%`; the text shown equals the input and carries a sign exactly when the row is not gray |
| `Row.ColourIgnoresLabelAndValue` | widget.py:77-85 | two rows with the same change string get the same colour and the same displayed change, whatever their labels and values; in their HTML both carry the same colour code and the same displayed change, each at its own row's offset |
| `Row.ShownIdempotent` | widget.py:83-85 | the displayed change classifies like the original; rendering it again changes nothing, because the placeholder carries no sign |
| `Row.Fragment` | widget.py:90-98 | the row template with its four holes filled in order: label, colour code, displayed change, value; it has no contract of its own, and `Row.RowLayout` states where each part sits |
| `Row.RowLayout` | widget.py:90-98 | a row fragment starts with the opening markup, then the label; the label's closing tag and the change span's opening up to `style="color: ` follow, then the colour code, then `;">` closing the style and the tag, then the displayed change, then the change span's closing tag and the value span's opening, then the value; the closing markup follows the value and ends the text; every part sits at the offset the fixed text puts it |
| `Row.RowHtml` | widget.py:77-98 | the classification followed by the row template; it has no contract of its own, and `Row.RowHtmlLayout` states the row in terms of the arguments |
| `Row.RowHtmlLayout` | widget.py:77-98 | the row for a label, a value and a change starts with the opening markup, then the label; then the change span's opening up to `style="color: `, the colour code of the change's class and `;">`, so the change span carries that colour; then the change as displayed (the placeholder when it has no sign), the markup between the change and the value, the value, and the closing markup ending the text; every part sits at the offset the fixed text puts it |
| `Row.ParseRowSound` | widget.py:90-98 | every text that the row reader accepts is exactly the row fragment of what it returns |
| `Row.ParseRowComplete` | widget.py:90-98 | a row whose label, value and change hold no `<` reads back to its label, colour, displayed change and value: the fragment is unambiguous on such rows |
| `Section.Column` | widget.py:111-118 | the rows of the triples (`Rows`, one `EntryHtml` per triple) joined in list order from the empty string; it has no contract of its own, and the three lemmas below state its properties |
| `Section.ColumnSingle` | widget.py:111-113 | a one-triple column is that triple's row |
| `Section.ColumnAppend` | widget.py:111-118 | the column of two lists one after the other is the two columns one after the other |
| `Section.ColumnRowAt` | widget.py:111-118 | the i-th triple's row appears in the column, right after the rows of the triples before it |
| `Section.Box` | widget.py:121-136 | the box template with its three holes filled in order: title, left column, right column; it has no contract of its own, and `Section.BoxLayout` states where each part sits |
| `Section.BoxLayout` | widget.py:121-136 | a box starts with the opening markup, then the title; then the markup holding the date stamp and opening the left column's `div`, then the left column's HTML, then the markup closing it and opening the right column's `div`, then the right column's HTML; the closing markup follows and ends the text; every part sits at the offset the fixed text puts it |
| `Section.SectionHtml` | widget.py:103-136 | the box filled with the title and the columns of the two lists; it has no contract of its own, and `Section.SectionLayout` states it in terms of the arguments |
| `Section.SectionLayout` | widget.py:103-136 | the section for a title and two lists starts with the box's opening markup, then the title; then the date stamp and the left column's opening `div`, then the in-order rows of the left triples, then the markup between the two columns, then the in-order rows of the right triples; the closing markup follows and ends the text; every part sits at the offset the fixed text puts it |
| `Section.RenderSectionBlock` | widget.py:103-136 | the text built by the two accumulation loops is the box filled with the title, the in-order column of the left triples and the in-order column of the right triples |
| `WidgetExamples.NegativeZeroIsBlue` | widget.py:191 | the change `-0.00` is blue and displayed as it is |
| `WidgetExamples.BareDashIsBlue` | widget.py:201 | the bare dash `-` is blue and displayed as it is, not replaced by the placeholder |
| `WidgetExamples.BothSignsIsRed` | widget.py:79-82 | a made-up change holding both `-` and `+` is red |
| `WidgetExamples.NegativeValuePositiveChange` | widget.py:193 | the row with value `-0.68` and change `+0.03` is red |
| `WidgetExamples.UnsignedChangeIsGray` | widget.py:188 | the change `0.00%` is gray and displayed as `0.00%` |
| `WidgetExamples.UnsignedChangeIsReplaced` | widget.py:83-85 | a made-up unsigned change other than the placeholder is displayed as `0.00%` in gray |

## Left out

- The page configuration call and the CSS block (widget.py:7-72): they are calls into the page framework and style text, with no logic.
- The hand-off of the box to the page (`st.markdown(..., unsafe_allow_html=True)`, widget.py:121 and 136): `RenderSectionBlock` returns the text it would hand over. Rendering is the framework's concern.
- `make_fg_charts` (widget.py:141-165) and the column and chart layout (widget.py:171-183): they build chart objects of an outside plotting library from fixed numbers.
- The data lists and the date stamp (widget.py:125, 187-222): they are fixed display data. The date stamp is kept verbatim as part of the box's fixed text. A few data rows serve as concrete examples in `WidgetExamples`.
- widget.py computes no numbers: every figure is a literal string (widget.py:187-222).
- HTML escaping: the source does none, and the model splices the texts verbatim. `Row.ParseRowComplete` shows that a row reads back unambiguously when its texts hold no `<`; with a `<` in them it may not.
- Argument types: label, value and change are modelled as strings, and a list item as an exact triple (`Section.Entry`). Python's f-string would format any object through `str()`, and `in` would raise on a number. `item[0]`, `item[1]` and `item[2]` (widget.py:113, 118) would also accept a longer tuple, ignoring the rest, and would raise `IndexError` on a shorter one. Every call site (widget.py:187-222) passes 3-tuples of strings.
- The framework's reruns, caching and concurrency: none of them appear in these routines.
