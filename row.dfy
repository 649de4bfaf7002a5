/** `get_row_html`: the row classifier and renderer of the market widget page.
    A row is classified by a textual test on its change string ('+' first, then
    '-'), coloured accordingly, and emitted as a fixed HTML fragment. Nothing is
    escaped: labels, values and change strings are spliced in verbatim. */
module Row {
  import opened Text

  /** The three colours a row's change can take. */
  datatype Colour = Red | Blue | Gray

  /** What a row shows once classified: the label, the chosen colour, the
      change text actually displayed and the value. */
  datatype RowView = RowView(name: string, colour: Colour, change: string, value: string)

  /** The text shown for a change that carries no sign. */
  const Placeholder: string := "0.00%"

  /** The CSS colour code of each colour. */
  function Hex(c: Colour): (r: string)
    ensures |r| == 7 && r[0] == '#'
  {
    match c
    case Red => "#ff4b4b"
    case Blue => "#4b88ff"
    case Gray => "#888888"
  }

  /** Reads a colour code back; the partner of Hex. */
  function ColourOfHex(s: string): (r: Option<Colour>)
    ensures r.Some? ==> Hex(r.value) == s
  {
    if s == Hex(Red) then Some(Red)
    else if s == Hex(Blue) then Some(Blue)
    else if s == Hex(Gray) then Some(Gray)
    else None
  }

  lemma HexRoundTrip(c: Colour)
    ensures ColourOfHex(Hex(c)) == Some(c)
  {
  }

  /** Each colour code is a '#' followed by six lower-case hexadecimal digits. */
  lemma HexDigits(c: Colour)
    ensures forall k | 1 <= k < 7 :: Hex(c)[k] in "0123456789abcdef"
  {
  }

  /** The colour of a change string: any '+' makes it red, even beside a '-';
      otherwise any '-' makes it blue; a string with neither sign is gray. */
  function Classify(change: string): (c: Colour)
    ensures c == Red <==> '+' in change
    ensures c == Blue <==> '+' !in change && '-' in change
    ensures c == Gray <==> '+' !in change && '-' !in change
  {
    if '+' in change then Red
    else if '-' in change then Blue
    else Gray
  }

  /** The change text a row displays: the input itself when it carries a sign,
      the placeholder when it does not. */
  function Shown(change: string): (r: string)
    ensures '+' in change || '-' in change ==> r == change
    ensures '+' !in change && '-' !in change ==> r == Placeholder
    ensures Classify(change) != Gray <==> r == change && ('+' in r || '-' in r)
  {
    if Classify(change) == Gray then Placeholder else change
  }

  /** The classification step of `get_row_html`: the colour depends on the
      change string alone, and the label and the value pass through untouched. */
  function ViewOf(name: string, value: string, change: string): RowView
  {
    RowView(name, Classify(change), Shown(change), value)
  }

  // The fixed text of the row template, split around its four holes.
  const SpanClose: string := "</span>"
  const RowOpen: string := "\n    <div class=\"data-row\">\n        <span class=\"lbl\">"
  const LabelToColour: string :=
    SpanClose + "\n        <div class=\"val-group\">\n            <span class=\"chg\" style=\"color: "
  const ColourToChange: string := ";\">"
  const ChangeToValue: string := SpanClose + "\n            <span class=\"val\">"
  const RowClose: string := SpanClose + "\n        </div>\n    </div>\n    "

  /** The row template filled with a classified row (grouped from the right,
      so that what follows each hole is a suffix of the text). */
  function Fragment(v: RowView): string
  {
    RowOpen + (v.name + (LabelToColour + (Hex(v.colour) + (ColourToChange
      + (v.change + (ChangeToValue + (v.value + RowClose)))))))
  }

  /** `get_row_html(label, value, change_str)`. */
  function RowHtml(name: string, value: string, change: string): string
  {
    Fragment(ViewOf(name, value, change))
  }

  /** `get_row_html` in terms of its own arguments: between the opening and
      the closing markup, the label, the colour code of the change's class,
      the displayed change and the value, each at the offset the fixed text
      puts it. */
  lemma RowHtmlLayout(name: string, value: string, change: string)
    ensures var html := RowHtml(name, value, change);
      var l := |RowOpen|;
      var c := l + |name| + |LabelToColour|;
      var s := c + 7 + |ColourToChange|;
      var w := s + |Shown(change)| + |ChangeToValue|;
      && w + |value| + |RowClose| == |html|
      && html[..l] == RowOpen
      && html[l .. l + |name|] == name
      && html[l + |name| .. c] == LabelToColour
      && html[c .. c + 7] == Hex(Classify(change))
      && html[c + 7 .. s] == ColourToChange
      && html[s .. s + |Shown(change)|] == Shown(change)
      && html[s + |Shown(change)| .. w] == ChangeToValue
      && html[w .. w + |value|] == value
      && html[w + |value| ..] == RowClose
  {
    RowLayout(RowHtml(name, value, change), name, Classify(change), Shown(change), value);
  }

  /** Where each part of a row fragment sits: the label right after the
      opening markup, then the colour code inside the change span's style,
      then the displayed change, then the value, each at the offset the
      template fixes, and the closing markup after the value. */
  lemma RowLayout(html: string, name: string, colour: Colour, shown: string, value: string)
    requires html == Fragment(RowView(name, colour, shown, value))
    ensures var l := |RowOpen|;
      var c := l + |name| + |LabelToColour|;
      var s := c + 7 + |ColourToChange|;
      var w := s + |shown| + |ChangeToValue|;
      && w + |value| + |RowClose| == |html|
      && html[..l] == RowOpen
      && html[l .. l + |name|] == name
      && html[l + |name| .. c] == LabelToColour
      && html[c .. c + 7] == Hex(colour)
      && html[c + 7 .. s] == ColourToChange
      && html[s .. s + |shown|] == shown
      && html[s + |shown| .. w] == ChangeToValue
      && html[w .. w + |value|] == value
      && html[w + |value| ..] == RowClose
  {
    RowHoles(html, name, colour, shown, value);
    RowMarkup(html, name, colour, shown, value);
  }

  // The two halves of RowLayout, proved apart to keep each proof small.

  lemma RowHoles(html: string, name: string, colour: Colour, shown: string, value: string)
    requires html == Fragment(RowView(name, colour, shown, value))
    ensures var l := |RowOpen|;
      var c := l + |name| + |LabelToColour|;
      var s := c + 7 + |ColourToChange|;
      var w := s + |shown| + |ChangeToValue|;
      && w + |value| + |RowClose| == |html|
      && html[l .. l + |name|] == name
      && html[c .. c + 7] == Hex(colour)
      && html[s .. s + |shown|] == shown
      && html[w .. w + |value|] == value
  {
    FourHoles(RowOpen, name, LabelToColour, Hex(colour), ColourToChange, shown, ChangeToValue, value, RowClose);
  }

  lemma RowMarkup(html: string, name: string, colour: Colour, shown: string, value: string)
    requires html == Fragment(RowView(name, colour, shown, value))
    ensures var l := |RowOpen|;
      var c := l + |name| + |LabelToColour|;
      var s := c + 7 + |ColourToChange|;
      var w := s + |shown| + |ChangeToValue|;
      && html[..l] == RowOpen
      && html[l + |name| .. c] == LabelToColour
      && html[c + 7 .. s] == ColourToChange
      && html[s + |shown| .. w] == ChangeToValue
      && html[w + |value| ..] == RowClose
  {
    FourHolesMiddles(RowOpen, name, LabelToColour, Hex(colour), ColourToChange, shown, ChangeToValue, value, RowClose);
    FourHolesTail(RowOpen, name, LabelToColour, Hex(colour), ColourToChange, shown, ChangeToValue, value, RowClose);
  }

  /** Changing the label or the value of a row never changes its colour or its
      displayed change: two rows with the same change carry the same colour
      code and the same displayed change, each at its own row's offset. */
  lemma ColourIgnoresLabelAndValue(name1: string, value1: string, name2: string, value2: string, change: string)
    ensures ViewOf(name1, value1, change).colour == ViewOf(name2, value2, change).colour
    ensures ViewOf(name1, value1, change).change == ViewOf(name2, value2, change).change
    ensures var h1, h2 := RowHtml(name1, value1, change), RowHtml(name2, value2, change);
      var c1 := |RowOpen| + |name1| + |LabelToColour|;
      var c2 := |RowOpen| + |name2| + |LabelToColour|;
      var s1, s2 := c1 + 7 + |ColourToChange|, c2 + 7 + |ColourToChange|;
      && h1[c1 .. c1 + 7] == h2[c2 .. c2 + 7]
      && h1[s1 .. s1 + |Shown(change)|] == h2[s2 .. s2 + |Shown(change)|]
  {
    RowHtmlLayout(name1, value1, change);
    RowHtmlLayout(name2, value2, change);
  }

  /** Re-rendering the displayed change keeps its colour and its text: the
      placeholder carries no sign, so it classifies gray and maps to itself. */
  lemma ShownIdempotent(change: string)
    ensures Classify(Shown(change)) == Classify(change)
    ensures Shown(Shown(change)) == Shown(change)
  {
    if Classify(change) == Gray {
      assert Placeholder == ['0', '.', '0', '0', '%'];
    }
  }

  // ---------------------------------------------------------------------
  // Reading a row back. The template is unambiguous as long as the spliced
  // texts hold no '<'; ParseRow is the inverse of Fragment on such rows.
  // ---------------------------------------------------------------------

  /** Reads a row fragment back into its view, or None when the text does not
      have the template's shape. */
  function ParseRow(html: string): Option<RowView>
  {
    match After(RowOpen, html)
    case None => None
    case Some(r1) =>
      var (name, r2) := SplitAt(r1, '<');
      match After(LabelToColour, r2)
      case None => None
      case Some(r3) =>
        if |r3| < 7 then None
        else
          match ColourOfHex(r3[..7])
          case None => None
          case Some(colour) =>
            match After(ColourToChange, r3[7..])
            case None => None
            case Some(r5) =>
              var (change, r6) := SplitAt(r5, '<');
              match After(ChangeToValue, r6)
              case None => None
              case Some(r7) =>
                var (value, r8) := SplitAt(r7, '<');
                if r8 == RowClose then Some(RowView(name, colour, change, value)) else None
  }

  /** Every text ParseRow accepts is exactly the fragment of what it returns. */
  lemma ParseRowSound(html: string)
    requires ParseRow(html).Some?
    ensures Fragment(ParseRow(html).value) == html
  {
    var r1 := After(RowOpen, html).value;
    var (name, r2) := SplitAt(r1, '<');
    var r3 := After(LabelToColour, r2).value;
    var r5 := After(ColourToChange, r3[7..]).value;
    var (change, r6) := SplitAt(r5, '<');
    var r7 := After(ChangeToValue, r6).value;
    var (value, r8) := SplitAt(r7, '<');
    assert r3 == r3[..7] + r3[7..];
  }

  /** A row whose label, value and change contain no '<' reads back to the
      view it was rendered from. */
  lemma ParseRowComplete(name: string, value: string, change: string)
    requires '<' !in name && '<' !in value && '<' !in change
    ensures ParseRow(RowHtml(name, value, change)) == Some(ViewOf(name, value, change))
  {
    var v := ViewOf(name, value, change);
    var hex, shown := Hex(v.colour), Shown(change);
    assert '<' !in shown by {
      if shown == Placeholder { assert Placeholder == ['0', '.', '0', '0', '%']; }
    }
    var r7 := value + RowClose;
    var r6 := ChangeToValue + r7;
    var r5 := shown + r6;
    var r4 := ColourToChange + r5;
    var r3 := hex + r4;
    var r2 := LabelToColour + r3;
    var r1 := name + r2;
    assert RowHtml(name, value, change) == Fragment(v) == RowOpen + r1;
    AfterConcat(RowOpen, r1);
    assert r2[0] == SpanClose[0] == '<';
    SplitAtConcat(name, r2, '<');
    AfterConcat(LabelToColour, r3);
    assert r3[..7] == hex && r3[7..] == r4;
    HexRoundTrip(v.colour);
    AfterConcat(ColourToChange, r5);
    SplitAtConcat(shown, r6, '<');
    AfterConcat(ChangeToValue, r7);
    SplitAtConcat(value, RowClose, '<');
  }
}
