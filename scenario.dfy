/** One data file through the modelled steps of `main`: two columns chosen
    on the command line, a header naming both, one panel. */
module Scenario {
  import opened Outcome
  import opened Text
  import opened Columns
  import opened Metadata
  import opened Labels
  import opened Layout

  /** The header of a file whose (zero-based) columns `x` and `y` are named. */
  function Header(x: int, xname: string, y: int, yname: string): seq<string>
  {
    [DirectiveLine(ShowInt(x + 1), xname), DirectiveLine(ShowInt(y + 1), yname)]
  }

  /** Choosing columns `x` and `y` of a file with the header above, as one
      string on the command line: the columns come back zero-based, the
      metadata holds both names, the x and y labels are those names with no
      per-series labels (so nothing is padded), and one file fills one row. */
  lemma TwoColumnPlot(x: int, xname: string, y: int, yname: string, ncols: int)
    requires x != y
    requires xname != [] && NoSpace(xname) && yname != [] && NoSpace(yname)
    requires ncols >= 1
    ensures ColumnIndices(AsString(Join(OneBased([x, y])))) == Ok([x, y])
    ensures MetadataOf(Header(x, xname, y, yname)) == Ok(map[x := xname, y := yname])
    ensures Selection(map[x := xname, y := yname], [x, y], 2) == Ok(AxisLabels(xname, yname, []))
    ensures PaddedLabels([], 2) == []
    ensures GridRows(1, ncols) == Ok(1)
  {
    ColumnsStringRoundTrip([x, y]);
    var first, second := DirectiveLine(ShowInt(x + 1), xname), DirectiveLine(ShowInt(y + 1), yname);
    DirectiveRoundTrip(x + 1, xname);
    DirectiveRoundTrip(y + 1, yname);
    MetadataSnoc([], first);
    assert [] + [first] == [first];
    MetadataSnoc([first], second);
    assert [first] + [second] == Header(x, xname, y, yname);
    GridRowsUnique(1, ncols, 1);
  }
}
