/** Turning frame rows into characteristic records
    (`DataProcessorService.process_dataframe`). */
module DataProcessor {
  import opened Options
  import opened Text
  import opened Characteristic
  import opened Filtering
  import WordTables

  /** A frame cell: text, or one of pandas' two missing markers, whose
      `str()` is `'nan'` and `'None'`. */
  datatype Cell = Text(text: string) | NaN | Null

  function Str(c: Cell): string {
    match c
    case Text(s) => s
    case NaN => "nan"
    case Null => "None"
  }

  /** A frame row: the cell of each column the row has, keyed by column
      name. */
  type Row = map<string, Cell>

  /** The text of a column: the cell, or `default` when the row has no such
      column, rendered as text and stripped. */
  function Field(row: Row, column: string, default: Cell): string
  {
    Strip(Str(if column in row then row[column] else default))
  }

  function ItemNoOf(row: Row): string { Field(row, "ITEM NO", Text("")) }
  function DimensionOf(row: Row): string { Field(row, "DIMENSION", Text("")) }

  /** The rows that become records: both the item number and the dimension
      must be non-blank once stripped. */
  predicate Kept(row: Row) {
    !IsBlank(ItemNoOf(row)) && !IsBlank(DimensionOf(row))
  }

  /** The measured value of a row: absent when the cell is missing, or its
      stripped text is empty, `'nan'` or `'None'`. */
  function ActualOf(row: Row): (r: Option<string>)
    ensures r.None? <==> IsBlank(Field(row, "ACTUAL", Null))
    ensures r.Some? ==> r.value == Field(row, "ACTUAL", Null) && r.value != []
  {
    var cell := if "ACTUAL" in row then row["ACTUAL"] else Null;
    var text := Strip(Str(cell));
    if cell.NaN? || cell.Null? || IsBlank(text) then None else Some(text)
  }

  /** One loop iteration: the record built from a row, with the parser's
      fields copied onto it, or None when the row is skipped. */
  function RowToRecord(row: Row, parse: string -> Option<ParsedResult>): (r: Option<Characteristic>)
    ensures r.Some? <==> Kept(row)
    ensures r.Some? ==>
      && r.value.itemNo == ItemNoOf(row) && !IsBlank(r.value.itemNo)
      && r.value.dimension == DimensionOf(row) && !IsBlank(r.value.dimension)
      && r.value.tooling == Field(row, "TOOLING", Text(""))
      && r.value.remarks == Field(row, "REMARKS", Text(""))
      && r.value.bpZone == Field(row, "B/P ZONE", Text(""))
      && r.value.badge == Field(row, "BADGE", Text(""))
      && r.value.inspectionLevel == Field(row, "INSP. LEVEL", Text("100%"))
      && r.value.actual == ActualOf(row)
      && !r.value.outOfTolerance
      && r.value.parsedDimension == parse(r.value.dimension)
    // the derived fields: copied from a parser result, absent without one
    ensures r.Some? && parse(r.value.dimension).None? ==>
      r.value.toleranceType.None? && r.value.nominalValue.None?
      && r.value.upperLimit.None? && r.value.lowerLimit.None?
    ensures r.Some? && parse(r.value.dimension).Some? ==>
      var p := parse(r.value.dimension).value;
      r.value.toleranceType == p.format && r.value.nominalValue == p.nominal
      && r.value.upperLimit == p.upperLimit && r.value.lowerLimit == p.lowerLimit
  {
    var itemNo := ItemNoOf(row);
    var dimension := DimensionOf(row);
    if IsBlank(itemNo) || IsBlank(dimension) then None
    else
      var base := NewCharacteristic(itemNo, dimension, Field(row, "TOOLING", Text(""))).(
        remarks := Field(row, "REMARKS", Text("")),
        bpZone := Field(row, "B/P ZONE", Text("")),
        inspectionLevel := Field(row, "INSP. LEVEL", Text("100%")),
        actual := ActualOf(row),
        badge := Field(row, "BADGE", Text("")));
      match parse(dimension)
      case None => Some(base)
      case Some(p) =>
        Some(base.(parsedDimension := Some(p), toleranceType := p.format,
                   nominalValue := p.nominal, upperLimit := p.upperLimit,
                   lowerLimit := p.lowerLimit))
  }

  /** Number of rows that are kept. */
  function CountKept(rows: seq<Row>): nat {
    CountWhere(rows, Kept)
  }

  /** The row conversion as a function value. */
  function Converter(parse: string -> Option<ParsedResult>): (f: Row -> Option<Characteristic>)
    ensures forall row :: f(row) == RowToRecord(row, parse)
  {
    row => RowToRecord(row, parse)
  }

  /** `process_dataframe`: one record per kept row, in row order. The record
      of a kept row `i` sits at the position given by the number of kept
      rows before it, and every record comes from a kept row. */
  method ProcessDataFrame(rows: seq<Row>, parse: string -> Option<ParsedResult>)
    returns (records: seq<Characteristic>)
    ensures |records| == CountKept(rows) <= |rows|
    ensures forall i :: 0 <= i < |rows| && Kept(rows[i]) ==>
      CountKept(rows[..i]) < |records|
      && records[CountKept(rows[..i])] == RowToRecord(rows[i], parse).value
    ensures records == FilterMap(rows, Converter(parse))
  {
    var f := Converter(parse);
    records := [];
    var i := 0;
    while i < |rows|
      invariant 0 <= i <= |rows|
      invariant records == FilterMap(rows[..i], f)
    {
      FilterMapStep(rows, f, i);
      var record := f(rows[i]);
      if record.Some? {
        records := records + [record.value];
      }
      i := i + 1;
    }
    assert rows[..|rows|] == rows;
    RecordPositions(rows, parse);
  }

  /** The converted frame has one record per kept row, and the record of
      each kept row sits at the number of kept rows before it. */
  lemma RecordPositions(rows: seq<Row>, parse: string -> Option<ParsedResult>)
    ensures |FilterMap(rows, Converter(parse))| == CountKept(rows)
    ensures forall i :: 0 <= i < |rows| && Kept(rows[i]) ==>
      CountKept(rows[..i]) < |FilterMap(rows, Converter(parse))|
      && FilterMap(rows, Converter(parse))[CountKept(rows[..i])] == RowToRecord(rows[i], parse).value
  {
    var f := Converter(parse);
    FilterMapLength(rows, f, Kept);
    forall i | 0 <= i < |rows| && Kept(rows[i])
      ensures CountKept(rows[..i]) < |FilterMap(rows, f)|
      ensures FilterMap(rows, f)[CountKept(rows[..i])] == RowToRecord(rows[i], parse).value
    {
      FilterMapLength(rows[..i], f, Kept);
      FilterMapPosition(rows, f, i);
    }
  }

  /** Every record comes from a kept row. */
  lemma RecordOrigin(rows: seq<Row>, parse: string -> Option<ParsedResult>, k: nat)
    requires k < |FilterMap(rows, Converter(parse))|
    ensures exists i :: 0 <= i < |rows| && Kept(rows[i]) &&
                        FilterMap(rows, Converter(parse))[k] == RowToRecord(rows[i], parse).value
  {
    var f := Converter(parse);
    FilterMapOrigin(rows, f, k);
    var i :| 0 <= i < |rows| && f(rows[i]).Some? && FilterMap(rows, f)[k] == f(rows[i]).value;
    assert Kept(rows[i]) && FilterMap(rows, f)[k] == RowToRecord(rows[i], parse).value;
  }

  /** Every record of a converted frame has a non-blank item number and
      dimension and starts unflagged. */
  lemma RecordsNonBlank(rows: seq<Row>, parse: string -> Option<ParsedResult>)
    ensures forall k :: 0 <= k < |FilterMap(rows, Converter(parse))| ==>
      var c := FilterMap(rows, Converter(parse))[k];
      !IsBlank(c.itemNo) && !IsBlank(c.dimension) && !c.outOfTolerance
  {
    forall k | 0 <= k < |FilterMap(rows, Converter(parse))|
      ensures var c := FilterMap(rows, Converter(parse))[k];
        !IsBlank(c.itemNo) && !IsBlank(c.dimension) && !c.outOfTolerance
    {
      RecordOrigin(rows, parse, k);
    }
  }

  /** The frame row built from a padded table row: each header names the
      cell in the same position. */
  function RowFromCells(cells: seq<string>): (row: Row)
    requires |cells| == WordTables.Width
    ensures forall k :: 0 <= k < WordTables.Width ==>
      WordTables.Headers[k] in row && row[WordTables.Headers[k]] == Text(cells[k])
  {
    map["ITEM NO" := Text(cells[0]), "DIMENSION" := Text(cells[1]),
        "ACTUAL" := Text(cells[2]), "BADGE" := Text(cells[3]),
        "TOOLING" := Text(cells[4]), "REMARKS" := Text(cells[5]),
        "B/P ZONE" := Text(cells[6]), "INSP. LEVEL" := Text(cells[7])]
  }

  /** A table row yields a record exactly when it has an item-number cell and
      a dimension cell that are non-blank once stripped. */
  predicate Usable(cells: seq<string>) {
    |cells| >= 2 && !IsBlank(Strip(cells[0])) && !IsBlank(Strip(cells[1]))
  }

  /** Padding never turns an unusable row into a kept one or the reverse. */
  lemma PaddedRowKept(cells: seq<string>)
    ensures Kept(RowFromCells(WordTables.PadRow(cells))) <==> Usable(cells)
  {
    var padded := WordTables.PadRow(cells);
    var row := RowFromCells(padded);
    assert ItemNoOf(row) == Strip(padded[0]);
    assert DimensionOf(row) == Strip(padded[1]);
    if |cells| < 2 {
      assert padded[1] == "";
      StripCharacterised(padded[1]);
    }
  }

  /** The frame rows of a padded table. */
  function FrameRows(frame: seq<seq<string>>): (rows: seq<Row>)
    requires forall j :: 0 <= j < |frame| ==> |frame[j]| == WordTables.Width
    ensures |rows| == |frame|
    ensures forall j :: 0 <= j < |frame| ==> rows[j] == RowFromCells(frame[j])
  {
    seq(|frame|, j requires 0 <= j < |frame| => RowFromCells(frame[j]))
  }

  lemma {:induction false} CountKeptPadded(data: seq<seq<string>>, frame: seq<seq<string>>)
    requires |frame| == |data|
    requires forall j :: 0 <= j < |frame| ==> |frame[j]| == WordTables.Width
    requires forall j :: 0 <= j < |frame| ==> frame[j] == WordTables.PadRow(data[j])
    ensures CountKept(FrameRows(frame)) == CountWhere(data, Usable)
    decreases |data|
  {
    if data != [] {
      var n := |data| - 1;
      CountKeptPadded(data[..n], frame[..n]);
      assert FrameRows(frame)[..n] == FrameRows(frame[..n]);
      PaddedRowKept(data[n]);
    }
  }

  /** The record of a usable table row sits at the number of usable rows
      before it. */
  lemma PaddedPosition(data: seq<seq<string>>, frame: seq<seq<string>>,
                       parse: string -> Option<ParsedResult>, j: nat)
    requires |frame| == |data|
    requires forall i :: 0 <= i < |frame| ==> |frame[i]| == WordTables.Width
    requires forall i :: 0 <= i < |frame| ==> frame[i] == WordTables.PadRow(data[i])
    requires j < |data| && Usable(data[j])
    ensures CountWhere(data[..j], Usable) < |FilterMap(FrameRows(frame), Converter(parse))|
    ensures FilterMap(FrameRows(frame), Converter(parse))[CountWhere(data[..j], Usable)]
            == RowToRecord(RowFromCells(WordTables.PadRow(data[j])), parse).value
  {
    var rows := FrameRows(frame);
    var f := Converter(parse);
    PaddedRowKept(data[j]);
    assert rows[j] == RowFromCells(WordTables.PadRow(data[j]));
    assert rows[..j] == FrameRows(frame[..j]);
    CountKeptPadded(data[..j], frame[..j]);
    FilterMapLength(rows[..j], f, Kept);
    FilterMapPosition(rows, f, j);
  }

  lemma PaddedPositions(data: seq<seq<string>>, frame: seq<seq<string>>,
                        parse: string -> Option<ParsedResult>)
    requires |frame| == |data|
    requires forall j :: 0 <= j < |frame| ==> |frame[j]| == WordTables.Width
    requires forall j :: 0 <= j < |frame| ==> frame[j] == WordTables.PadRow(data[j])
    ensures forall j :: 0 <= j < |data| && Usable(data[j]) ==>
      CountWhere(data[..j], Usable) < |FilterMap(FrameRows(frame), Converter(parse))|
      && FilterMap(FrameRows(frame), Converter(parse))[CountWhere(data[..j], Usable)]
         == RowToRecord(RowFromCells(WordTables.PadRow(data[j])), parse).value
  {
    forall j | 0 <= j < |data| && Usable(data[j])
      ensures CountWhere(data[..j], Usable) < |FilterMap(FrameRows(frame), Converter(parse))|
      ensures FilterMap(FrameRows(frame), Converter(parse))[CountWhere(data[..j], Usable)]
              == RowToRecord(RowFromCells(WordTables.PadRow(data[j])), parse).value
    {
      PaddedPosition(data, frame, parse, j);
    }
  }

  /** The whole ingestion of one table: pad the extracted rows into the
      frame, then turn the frame into records. Exactly the data rows with a
      non-blank item number and dimension become records, in table order:
      the record of such a row sits at the number of such rows before it. */
  method Ingest(extracted: seq<seq<string>>, parse: string -> Option<ParsedResult>)
    returns (records: seq<Characteristic>)
    ensures |extracted| < 2 ==> records == []
    ensures |extracted| >= 2 ==> |records| == CountWhere(extracted[1..], Usable)
    ensures |extracted| >= 2 ==>
      var data := extracted[1..];
      forall j :: 0 <= j < |data| && Usable(data[j]) ==>
        CountWhere(data[..j], Usable) < |records|
        && records[CountWhere(data[..j], Usable)]
           == RowToRecord(RowFromCells(WordTables.PadRow(data[j])), parse).value
    ensures forall k :: 0 <= k < |records| ==>
      !IsBlank(records[k].itemNo) && !IsBlank(records[k].dimension) && !records[k].outOfTolerance
  {
    var frame := WordTables.FromWordTables(extracted);
    var rows := FrameRows(frame);
    records := ProcessDataFrame(rows, parse);
    if |extracted| >= 2 {
      CountKeptPadded(extracted[1..], frame);
      PaddedPositions(extracted[1..], frame, parse);
    }
    RecordsNonBlank(rows, parse);
  }
}
