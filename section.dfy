/** `render_section_block`: the rows of a left and a right column, in order,
    inside a titled box. */
module Section {
  import opened Text
  import opened Row

  /** One `(label, value, change)` triple of a column list. */
  datatype Entry = Entry(name: string, value: string, change: string)

  /** The row for one triple of a column list (`item[0]`, `item[1]`, `item[2]`). */
  function EntryHtml(e: Entry): string
  {
    RowHtml(e.name, e.value, e.change)
  }

  /** The rows of a list of triples, one per triple, in order. */
  function Rows(entries: seq<Entry>): seq<string>
  {
    seq(|entries|, i requires 0 <= i < |entries| => EntryHtml(entries[i]))
  }

  /** The HTML of a column: the rows of its triples joined in order, as the
      loop `html += get_row_html(...)` builds it from the empty string. */
  function Column(entries: seq<Entry>): string
  {
    Concat(Rows(entries))
  }

  /** The rows of a prefix of the list are a prefix of the rows. */
  lemma RowsPrefix(entries: seq<Entry>, i: nat)
    requires i <= |entries|
    ensures Rows(entries[..i]) == Rows(entries)[..i]
  {
  }

  /** The rows of two lists one after the other are their rows one after the
      other. */
  lemma RowsAppend(a: seq<Entry>, b: seq<Entry>)
    ensures Rows(a + b) == Rows(a) + Rows(b)
  {
  }

  /** A one-triple column is that triple's row. */
  lemma ColumnSingle(e: Entry)
    ensures Column([e]) == EntryHtml(e)
  {
    assert Rows([e]) == [EntryHtml(e)];
    ConcatSingle(EntryHtml(e));
  }

  /** Building a column from two lists one after the other gives the two
      columns one after the other. */
  lemma ColumnAppend(a: seq<Entry>, b: seq<Entry>)
    ensures Column(a + b) == Column(a) + Column(b)
  {
    RowsAppend(a, b);
    ConcatAppend(Rows(a), Rows(b));
  }

  /** The i-th triple's row sits in the column right after the rows of the
      triples before it. */
  lemma ColumnRowAt(entries: seq<Entry>, i: nat)
    requires i < |entries|
    ensures var o := |Column(entries[..i])|;
      && o + |EntryHtml(entries[i])| <= |Column(entries)|
      && Column(entries)[o .. o + |EntryHtml(entries[i])|] == EntryHtml(entries[i])
  {
    RowsPrefix(entries, i);
    ConcatAt(Rows(entries), i);
    assert Rows(entries)[i] == EntryHtml(entries[i]);
  }

  // The fixed text of the box template, split around its three holes.
  const BoxOpen: string :=
    "\n    <div class=\"widget-box\">\n        <div class=\"widget-header\">\n            <span class=\"widget-title\">"
  const TitleToLeft: string :=
    "</span>\n            <span class=\"widget-date\">2026/02/10 23:18</span>\n        </div>\n        <div class=\"data-grid\">\n            <div class=\"col-left\">\n                "
  const LeftToRight: string := "\n            </div>\n            <div class=\"col-right\">\n                "
  const BoxClose: string := "\n            </div>\n        </div>\n    </div>\n    "

  /** The box template filled with a title and the HTML of the two columns. */
  function Box(title: string, leftHtml: string, rightHtml: string): string
  {
    BoxOpen + (title + (TitleToLeft + (leftHtml + (LeftToRight + (rightHtml + BoxClose)))))
  }

  /** The box `render_section_block` hands to the page. */
  function SectionHtml(title: string, left: seq<Entry>, right: seq<Entry>): string
  {
    Box(title, Column(left), Column(right))
  }

  /** The title comes first, then the left column, then the right column,
      each at the offset the template fixes. */
  lemma BoxLayout(title: string, leftHtml: string, rightHtml: string)
    ensures var html := Box(title, leftHtml, rightHtml);
      var t := |BoxOpen|;
      var l := t + |title| + |TitleToLeft|;
      var r := l + |leftHtml| + |LeftToRight|;
      && r + |rightHtml| + |BoxClose| == |html|
      && html[..t] == BoxOpen
      && html[t .. t + |title|] == title
      && html[t + |title| .. l] == TitleToLeft
      && html[l .. l + |leftHtml|] == leftHtml
      && html[l + |leftHtml| .. r] == LeftToRight
      && html[r .. r + |rightHtml|] == rightHtml
      && html[r + |rightHtml| ..] == BoxClose
  {
    ThreeHoles(BoxOpen, title, TitleToLeft, leftHtml, LeftToRight, rightHtml, BoxClose);
    ThreeHolesMiddles(BoxOpen, title, TitleToLeft, leftHtml, LeftToRight, rightHtml, BoxClose);
    ThreeHolesTail(BoxOpen, title, TitleToLeft, leftHtml, LeftToRight, rightHtml, BoxClose);
  }

  /** `render_section_block` in terms of its own arguments: the title, then
      the in-order rows of the left triples, then those of the right triples,
      each at the offset the fixed text puts it, between the box's opening and
      closing markup. */
  lemma SectionLayout(title: string, left: seq<Entry>, right: seq<Entry>)
    ensures var html := SectionHtml(title, left, right);
      var t := |BoxOpen|;
      var l := t + |title| + |TitleToLeft|;
      var r := l + |Column(left)| + |LeftToRight|;
      && r + |Column(right)| + |BoxClose| == |html|
      && html[..t] == BoxOpen
      && html[t .. t + |title|] == title
      && html[t + |title| .. l] == TitleToLeft
      && html[l .. l + |Column(left)|] == Column(left)
      && html[l + |Column(left)| .. r] == LeftToRight
      && html[r .. r + |Column(right)|] == Column(right)
      && html[r + |Column(right)| ..] == BoxClose
  {
    BoxLayout(title, Column(left), Column(right));
  }

  /** `render_section_block(title, left_data, right_data)`, returning the text
      it passes to the page instead of writing it. */
  method RenderSectionBlock(title: string, left: seq<Entry>, right: seq<Entry>) returns (html: string)
    ensures html == SectionHtml(title, left, right)
  {
    var leftHtml := "";
    var i := 0;
    while i < |left|
      invariant 0 <= i <= |left|
      invariant leftHtml == Concat(Rows(left)[..i])
    {
      ConcatSnoc(Rows(left), i);
      leftHtml := leftHtml + EntryHtml(left[i]);
      i := i + 1;
    }
    assert Rows(left)[..i] == Rows(left);

    var rightHtml := "";
    var j := 0;
    while j < |right|
      invariant 0 <= j <= |right|
      invariant rightHtml == Concat(Rows(right)[..j])
    {
      ConcatSnoc(Rows(right), j);
      rightHtml := rightHtml + EntryHtml(right[j]);
      j := j + 1;
    }
    assert Rows(right)[..j] == Rows(right);

    html := Box(title, leftHtml, rightHtml);
  }
}
