/** Turning the rows extracted from the Word document's table into the
    fixed eight-column frame (`DataProcessorService.from_word_tables`). */
module WordTables {

  /** The fixed column names, in order. */
  const Headers: seq<string> :=
    ["ITEM NO", "DIMENSION", "ACTUAL", "BADGE", "TOOLING", "REMARKS", "B/P ZONE", "INSP. LEVEL"]

  const Width: nat := |Headers|

  function Blanks(n: int): (r: seq<string>)
    ensures |r| == if n < 0 then 0 else n
    ensures forall k :: 0 <= k < |r| ==> r[k] == ""
    decreases n
  {
    if n <= 0 then [] else Blanks(n - 1) + [""]
  }

  /** A table row brought to exactly one cell per header: the row's own
      cells first, empty strings after them when it is short, and the cells
      beyond the last header dropped when it is long. */
  function PadRow(row: seq<string>): (r: seq<string>)
    ensures |r| == Width
    ensures forall k :: 0 <= k < |row| && k < Width ==> r[k] == row[k]
    ensures forall k :: |row| <= k < Width ==> r[k] == ""
  {
    (row + Blanks(Width - |row|))[..Width]
  }

  /** A row that already has one cell per header is left as it is. */
  lemma PadRowFixesFullRows(row: seq<string>)
    requires |row| == Width
    ensures PadRow(row) == row
  {
  }

  /** Padding is idempotent. */
  lemma PadRowIdempotent(row: seq<string>)
    ensures PadRow(PadRow(row)) == PadRow(row)
  {
    PadRowFixesFullRows(PadRow(row));
  }

  /** The frame built from the extracted rows: no rows unless there is a
      header row and at least one data row; otherwise the header row is
      dropped and every data row is padded, in order. */
  method FromWordTables(extracted: seq<seq<string>>) returns (frame: seq<seq<string>>)
    ensures |extracted| < 2 ==> frame == []
    ensures |extracted| >= 2 ==> |frame| == |extracted| - 1
    ensures forall j :: 0 <= j < |frame| ==> |frame[j]| == Width
    ensures forall j :: 0 <= j < |frame| ==> frame[j] == PadRow(extracted[j + 1])
    ensures forall j, k :: 0 <= j < |frame| && 0 <= k < |extracted[j + 1]| && k < Width ==>
      frame[j][k] == extracted[j + 1][k]
    ensures forall j, k :: 0 <= j < |frame| && |extracted[j + 1]| <= k < Width ==>
      frame[j][k] == ""
  {
    if |extracted| < 2 {
      return [];
    }
    var dataRows := extracted[1..];
    frame := [];
    var i := 0;
    while i < |dataRows|
      invariant 0 <= i <= |dataRows|
      invariant |frame| == i
      invariant forall j :: 0 <= j < i ==> frame[j] == PadRow(dataRows[j])
    {
      frame := frame + [PadRow(dataRows[i])];
      i := i + 1;
    }
  }
}
