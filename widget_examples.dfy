/** What the model gives for some concrete rows. Four are rows of the page's
    data lists; BothSignsIsRed and UnsignedChangeIsReplaced use made-up
    changes, since no row of those lists has both signs or an unsigned change
    other than the placeholder. Together they show the textual classification
    rule on the inputs where it departs from a reading of the numbers. */
module WidgetExamples {
  import opened Row

  /** A negative zero is blue, not gray: the rule looks for a '-' character,
      not at the value of the number. */
  lemma NegativeZeroIsBlue()
    ensures ViewOf("US 2Y", "3.59%", "-0.00") == RowView("US 2Y", Blue, "-0.00", "3.59%")
  {
    assert '-' in "-0.00" by { assert "-0.00"[0] == '-'; }
  }

  /** A bare dash, meaning "no change reported", is blue as well, and is
      displayed as the dash itself rather than as the placeholder. */
  lemma BareDashIsBlue()
    ensures ViewOf("SOFR", "3.63%", "-") == RowView("SOFR", Blue, "-", "3.63%")
  {
    assert '+' !in "-";
  }

  /** A change holding both signs is red, since '+' is tested first (a
      made-up change). */
  lemma BothSignsIsRed()
    ensures Classify("-+0.01") == Red
  {
    assert "-+0.01"[1] == '+';
  }

  /** A negative value with a positive change is red: only the change counts. */
  lemma NegativeValuePositiveChange()
    ensures ViewOf("Stress Index", "-0.68", "+0.03").colour == Red
  {
    assert "+0.03"[0] == '+';
  }

  /** The Fear & Greed row's change already reads "0.00%": gray, and shown
      as it is. */
  lemma UnsignedChangeIsGray()
    ensures ViewOf("Fear & Greed", "49", "0.00%") == RowView("Fear & Greed", Gray, "0.00%", "49")
  {
    ShownIdempotent("0.00%");
  }

  /** An unsigned change that is not the placeholder is replaced by it: had
      the gold row's "+0.52%" lost its sign (a made-up change), it would show
      "0.00%" in gray. */
  lemma UnsignedChangeIsReplaced()
    ensures ViewOf("Gold", "5,077", "0.52%") == RowView("Gold", Gray, "0.00%", "5,077")
  {
    assert "0.52%" == ['0', '.', '5', '2', '%'];
  }
}
