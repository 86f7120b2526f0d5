/**
 * The Excel reader (.xlsx, .xls, .xlsm, .xlsb): each worksheet becomes one
 * sheet of the manifest. The first row of a worksheet's range holds the
 * headers; for every later row, each cell is shown to its column's
 * inferencer when the cell has a native type and is fed to its column's
 * tracker by its native kind; then each column's entry is assembled.
 *
 * Unlike the CSV reader, an overflowed tracker turns every column,
 * Phi and Recode ones included, into a HighCardinality column, and no
 * column is ever recoded.
 */
module ExcelReader {
  import opened Strings
  import opened Types
  import opened Bucketing
  import opened ColumnNames
  import opened ColumnAssembly
  import Inference
  import Stats
  import Recoding
  import Suppression

  // ---------------------------------------------------------------------
  // Cells
  // ---------------------------------------------------------------------

  /** calamine's `CellErrorType`. */
  datatype ErrorKind = Div0 | NA | Name | Null | Num | Ref | Value | GettingData

  /** The `Debug` name of an error kind. */
  function ErrorName(e: ErrorKind): string {
    match e
    case Div0 => "Div0"
    case NA => "NA"
    case Name => "Name"
    case Null => "Null"
    case Num => "Num"
    case Ref => "Ref"
    case Value => "Value"
    case GettingData => "GettingData"
  }

  /** calamine's `Data`: one cell of a worksheet. */
  datatype Data =
    | CellEmpty
    | CellString(s: string)
    | CellFloat(f: real)
    | CellInt(i: int)
    | CellBool(b: bool)
    | CellDateTime(serial: real)
    | CellDateTimeIso(s: string)
    | CellDurationIso(s: string)
    | CellError(e: ErrorKind)

  /**
   * How floats and date serials are written out: `f64::to_string` and the
   * serial-to-date conversion are outside the model and are passed in.
   */
  datatype Renderers = Renderers(float: real -> string, date: real -> string)

  /** `data_to_string`. */
  function DataToString(rd: Renderers, d: Data): string {
    match d
    case CellEmpty => ""
    case CellString(s) => s
    case CellFloat(f) => rd.float(f)
    case CellInt(i) => IntToString(i)
    case CellBool(b) => if b then "true" else "false"
    case CellDateTime(serial) => rd.date(serial)
    case CellDateTimeIso(s) => s
    case CellDurationIso(s) => s
    case CellError(e) => "#" + ErrorName(e)
  }

  /** The renderings `data_to_string`'s tests fix, whatever the float and date renderers. */
  lemma RenderingExamples(rd: Renderers)
    ensures DataToString(rd, CellEmpty) == ""
    ensures DataToString(rd, CellString("test")) == "test"
    ensures DataToString(rd, CellInt(42)) == "42"
    ensures DataToString(rd, CellBool(true)) == "true"
    ensures DataToString(rd, CellError(Div0)) == "#Div0"
  {
    assert NatToString(42) == NatToString(4) + [DigitChar(2)];
  }

  /** `is_missing_data`: empty and error cells are missing, a string cell when its text is. */
  predicate IsMissingData(d: Data) {
    match d
    case CellEmpty => true
    case CellString(s) => Inference.IsMissing(s)
    case CellError(_) => true
    case _ => false
  }

  /** `is_missing_data`'s test cases: an empty cell and the text "NA" are missing, the integer 42 is not. */
  lemma MissingDataExamples()
    ensures IsMissingData(CellEmpty) && IsMissingData(CellString("NA")) && !IsMissingData(CellInt(42))
  {
    Inference.NaIsMissing();
  }

  /**
   * `get_numeric_value`: floats, integers and date-times carry a number;
   * none of them is ever missing.
   */
  function GetNumericValue(d: Data): (r: Option<real>)
    ensures r.Some? <==> d.CellFloat? || d.CellInt? || d.CellDateTime?
    ensures r.Some? ==> !IsMissingData(d)
    ensures d.CellFloat? ==> r == Some(d.f)
    ensures d.CellInt? ==> r == Some(d.i as real)
    ensures d.CellDateTime? ==> r == Some(d.serial)
  {
    match d
    case CellFloat(f) => Some(f)
    case CellInt(i) => Some(i as real)
    case CellDateTime(serial) => Some(serial)
    case _ => None
  }

  /**
   * `infer_type_from_data`: every cell but an empty or an error cell has a
   * native type, so every cell without one is a missing cell.
   */
  function InferTypeFromData(d: Data): (r: Option<DType>)
    ensures r.None? <==> d.CellEmpty? || d.CellError?
    ensures r.None? ==> IsMissingData(d)
    ensures d.CellString? ==> r == Some(DString)
    ensures d.CellFloat? || d.CellDurationIso? ==> r == Some(DNumeric)
    ensures d.CellInt? ==> r == Some(DInteger)
    ensures d.CellBool? ==> r == Some(DBoolean)
    ensures d.CellDateTime? || d.CellDateTimeIso? ==> r == Some(DDate)
  {
    match d
    case CellEmpty => None
    case CellString(_) => Some(DString)
    case CellFloat(_) => Some(DNumeric)
    case CellInt(_) => Some(DInteger)
    case CellBool(_) => Some(DBoolean)
    case CellDateTime(_) => Some(DDate)
    case CellDateTimeIso(_) => Some(DDate)
    case CellDurationIso(_) => Some(DNumeric)
    case CellError(_) => None
  }

  // ---------------------------------------------------------------------
  // What a column's cells give its inferencer and its tracker
  // ---------------------------------------------------------------------

  /** The texts a column's inferencer observes: the rendering of each cell with a native type, in order. */
  function InferenceTexts(rd: Renderers, cells: seq<Data>): (r: seq<string>)
    ensures |r| <= |cells|
    decreases |cells|
  {
    if cells == [] then []
    else
      var last := cells[|cells| - 1];
      InferenceTexts(rd, cells[..|cells| - 1]) + (if InferTypeFromData(last).Some? then [DataToString(rd, last)] else [])
  }

  lemma InferenceTextsSnoc(rd: Renderers, cells: seq<Data>, d: Data)
    ensures InferenceTexts(rd, cells + [d]) ==
      InferenceTexts(rd, cells) + (if InferTypeFromData(d).Some? then [DataToString(rd, d)] else [])
  {
    assert (cells + [d])[..|cells|] == cells;
  }

  /**
   * The tracker call a cell makes: `update_missing` for a missing cell,
   * `update_numeric` for a float, integer or date-time, `update_string`
   * for any other cell, the last two with the cell's rendering.
   */
  function CellCall(rd: Renderers, d: Data): (o: Stats.Observation)
    ensures o.MissingCell? <==> IsMissingData(d)
    ensures o.NumericCell? <==> d.CellFloat? || d.CellInt? || d.CellDateTime?
    ensures o.NumericCell? ==> o.value == GetNumericValue(d).value && o.raw == DataToString(rd, d)
    ensures o.TextCell? ==> o.text == DataToString(rd, d)
  {
    if IsMissingData(d) then Stats.MissingCell
    else
      var num := GetNumericValue(d);
      if num.Some? then Stats.NumericCell(num.value, DataToString(rd, d))
      else Stats.TextCell(DataToString(rd, d))
  }

  /** The calls a column's cells make, one per cell. */
  function CellCalls(rd: Renderers, cells: seq<Data>): (os: seq<Stats.Observation>)
    ensures |os| == |cells|
    ensures forall i :: 0 <= i < |cells| ==> os[i] == CellCall(rd, cells[i])
  {
    seq(|cells|, i requires 0 <= i < |cells| => CellCall(rd, cells[i]))
  }

  lemma CellCallsSnoc(rd: Renderers, cells: seq<Data>, d: Data)
    ensures CellCalls(rd, cells + [d]) == CellCalls(rd, cells) + [CellCall(rd, d)]
  {
    assert CellCalls(rd, cells + [d])[..|cells|] == CellCalls(rd, cells);
  }

  /** A column of empty and error cells only. */
  predicate Blank(cells: seq<Data>) {
    forall i :: 0 <= i < |cells| ==> cells[i].CellEmpty? || cells[i].CellError?
  }

  lemma {:induction false} BlankHasNoTexts(rd: Renderers, cells: seq<Data>)
    requires Blank(cells)
    ensures InferenceTexts(rd, cells) == []
    decreases |cells|
  {
    if cells != [] {
      BlankHasNoTexts(rd, cells[..|cells| - 1]);
    }
  }

  lemma {:induction false} BlankCallsAreMissing(rd: Renderers, cells: seq<Data>)
    requires Blank(cells)
    ensures Stats.NumbersOf(CellCalls(rd, cells)) == [] && Stats.MissingOf(CellCalls(rd, cells)) == |cells|
    decreases |cells|
  {
    if cells != [] {
      var ys := cells[..|cells| - 1];
      BlankCallsAreMissing(rd, ys);
      CellCallsSnoc(rd, ys, cells[|cells| - 1]);
      assert cells == ys + [cells[|cells| - 1]];
      assert CellCalls(rd, cells)[..|ys|] == CellCalls(rd, ys);
    }
  }

  /**
   * A column holding only empty and error cells is typed String; its
   * tracker has seen no number and counts every cell as missing.
   */
  lemma BlankColumn(p: Inference.Parsers, rd: Renderers, cells: seq<Data>)
    requires Blank(cells)
    ensures ColumnType(p, InferenceTexts(rd, cells)) == DString
    ensures Stats.ObserveAll(MAX_UNIQUE_VALUES, CellCalls(rd, cells)).welford.count == 0
    ensures Stats.ObserveAll(MAX_UNIQUE_VALUES, CellCalls(rd, cells)).missingCount == |cells|
  {
    BlankHasNoTexts(rd, cells);
    Inference.ShortColumnType(p, []);
    BlankCallsAreMissing(rd, cells);
    Stats.CountIsNumericCalls(MAX_UNIQUE_VALUES, CellCalls(rd, cells));
  }

  // ---------------------------------------------------------------------
  // The pass over the data rows
  // ---------------------------------------------------------------------

  /** Each column's inferencer and tracker after the cells `cellsOf` of that column. */
  ghost predicate Scanned(p: Inference.Parsers, rd: Renderers, states: seq<Inference.InferenceState>,
                          stats: seq<Stats.StatState>, cellsOf: seq<seq<Data>>)
  {
    && |states| == |stats| == |cellsOf|
    && forall c :: 0 <= c < |cellsOf| ==>
         && states[c] == Inference.ObserveAll(p, Inference.INITIAL_STATE, InferenceTexts(rd, cellsOf[c]))
         && stats[c] == Stats.ObserveAll(MAX_UNIQUE_VALUES, CellCalls(rd, cellsOf[c]))
  }

  /** One cell: observed when it has a native type, then fed to the tracker by its kind. */
  method ScanCell(p: Inference.Parsers, rd: Renderers, state: Inference.InferenceState, st: Stats.StatState,
                  ghost cells: seq<Data>, cell: Data) returns (state': Inference.InferenceState, st': Stats.StatState)
    requires state == Inference.ObserveAll(p, Inference.INITIAL_STATE, InferenceTexts(rd, cells))
    requires st == Stats.ObserveAll(MAX_UNIQUE_VALUES, CellCalls(rd, cells))
    ensures state' == Inference.ObserveAll(p, Inference.INITIAL_STATE, InferenceTexts(rd, cells + [cell]))
    ensures st' == Stats.ObserveAll(MAX_UNIQUE_VALUES, CellCalls(rd, cells + [cell]))
  {
    InferenceTextsSnoc(rd, cells, cell);
    CellCallsSnoc(rd, cells, cell);
    Stats.ObserveAllSnoc(MAX_UNIQUE_VALUES, CellCalls(rd, cells), CellCall(rd, cell));
    state' := state;
    if InferTypeFromData(cell).Some? {
      var text := DataToString(rd, cell);
      Inference.ObserveAllSnoc(p, Inference.INITIAL_STATE, InferenceTexts(rd, cells), text);
      state' := Inference.ObserveStep(p, TYPE_INFERENCE_SAMPLE_SIZE, state, text);
    } else {
      assert InferenceTexts(rd, cells + [cell]) == InferenceTexts(rd, cells);
    }
    if IsMissingData(cell) {
      st' := Stats.MissingStep(st);
    } else {
      var num := GetNumericValue(cell);
      if num.Some? {
        st' := Stats.NumericStep(st, num.value, DataToString(rd, cell));
      } else {
        st' := Stats.StringStep(st, DataToString(rd, cell));
      }
    }
  }

  /** One data row: each cell within the sheet's width goes to its column; cells beyond it are skipped. */
  method ScanRow(p: Inference.Parsers, rd: Renderers, states: seq<Inference.InferenceState>,
                 stats: seq<Stats.StatState>, ghost cellsOf: seq<seq<Data>>, row: seq<Data>)
    returns (states': seq<Inference.InferenceState>, stats': seq<Stats.StatState>, ghost cellsOf': seq<seq<Data>>)
    requires Scanned(p, rd, states, stats, cellsOf)
    ensures Scanned(p, rd, states', stats', cellsOf')
    ensures |cellsOf'| == |cellsOf|
    ensures forall c :: 0 <= c < |cellsOf| ==> cellsOf'[c] == cellsOf[c] + (if c < |row| then [row[c]] else [])
  {
    states', stats', cellsOf' := states, stats, cellsOf;
    var j := 0;
    while j < |row|
      invariant 0 <= j <= |row| && |cellsOf'| == |cellsOf|
      invariant Scanned(p, rd, states', stats', cellsOf')
      invariant forall c :: 0 <= c < |cellsOf| ==> cellsOf'[c] == cellsOf[c] + (if c < j then [row[c]] else [])
    {
      if j < |states'| {
        var state, st := ScanCell(p, rd, states'[j], stats'[j], cellsOf'[j], row[j]);
        states', stats' := states'[j := state], stats'[j := st];
        cellsOf' := cellsOf'[j := cellsOf'[j] + [row[j]]];
      }
      j := j + 1;
    }
  }

  /** The empty start: no column has seen a cell. */
  lemma ScannedNothing(p: Inference.Parsers, rd: Renderers, numCols: nat)
    ensures Scanned(p, rd, seq(numCols, _ => Inference.INITIAL_STATE),
                    seq(numCols, _ => Stats.StatInit(MAX_UNIQUE_VALUES)), AllCells([], numCols))
  {
    var cellsOf: seq<seq<Data>> := AllCells([], numCols);
    forall c | 0 <= c < numCols
      ensures InferenceTexts(rd, cellsOf[c]) == [] && CellCalls(rd, cellsOf[c]) == []
    {
    }
  }

  /** The loop over the data rows, each column's inferencer and tracker seeing that column's cells. */
  method ScanRows(p: Inference.Parsers, rd: Renderers, numCols: nat, rows: seq<seq<Data>>)
    returns (states: seq<Inference.InferenceState>, stats: seq<Stats.StatState>)
    ensures Scanned(p, rd, states, stats, AllCells(rows, numCols))
  {
    states := seq(numCols, _ => Inference.INITIAL_STATE);
    stats := seq(numCols, _ => Stats.StatInit(MAX_UNIQUE_VALUES));
    ghost var cellsOf := AllCells([], numCols);
    ScannedNothing(p, rd, numCols);
    var r := 0;
    while r < |rows|
      invariant 0 <= r <= |rows|
      invariant Scanned(p, rd, states, stats, cellsOf) && cellsOf == AllCells(rows[..r], numCols)
    {
      states, stats, cellsOf := ScanRow(p, rd, states, stats, cellsOf, rows[r]);
      forall c | 0 <= c < numCols
        ensures ColumnCells(rows[..r + 1], c) == ColumnCells(rows[..r], c) + (if c < |rows[r]| then [rows[r][c]] else [])
      {
        ColumnCellsTake(rows, r, c);
      }
      r := r + 1;
    }
    assert rows[..|rows|] == rows;
  }

  /** Trackers that have seen at most a 64-bit count of rows have counters that fit. */
  lemma ScannedCountsFit(p: Inference.Parsers, rd: Renderers, states: seq<Inference.InferenceState>,
                         stats: seq<Stats.StatState>, rows: seq<seq<Data>>, numCols: nat)
    requires Scanned(p, rd, states, stats, AllCells(rows, numCols)) && |rows| < U64_LIMIT
    ensures forall c :: 0 <= c < |stats| ==> CountsFit(stats[c])
  {
    forall c | 0 <= c < |stats|
      ensures CountsFit(stats[c])
    {
      Stats.ObservedBounds(MAX_UNIQUE_VALUES, CellCalls(rd, ColumnCells(rows, c)));
    }
  }

  // ---------------------------------------------------------------------
  // Column assembly
  // ---------------------------------------------------------------------

  /** The final class: an overflowed tracker makes any column HighCardinality, whatever its name says. */
  function ExcelClassification(nameClass: Classification, high: bool): Classification {
    if high then HighCardinality else nameClass
  }

  /** The header of column `c`: the header row's cell, or "Column<c+1>" beyond the header row. */
  function HeaderOf(headers: seq<string>, c: nat): (h: string)
    ensures c < |headers| ==> h == headers[c]
    ensures c >= |headers| ==> h == "Column" + NatToString(c + 1)
  {
    if c < |headers| then headers[c] else "Column" + NatToString(c + 1)
  }

  /**
   * The name, position, type, class, warnings and statistics of the entry
   * for column `index` with header `header` and name check `check`.
   */
  ghost predicate ExcelHeadRules(col: ColumnSchema, header: string, check: ColumnNameResult, index: nat, dtype: DType,
                                 st: Stats.StatState, options: ProcessingOptions)
  {
    var high := st.unique.highCardinality;
    var cls := ExcelClassification(check.classification, high);
    && col.name == NameValue(cls, header)
    && col.index == index && col.dtype == dtype && col.classification == cls
    && col.warnings == (if check.warning.Some? then [check.warning.value] else [])
    && (CountsFit(st) ==> col.stats == Some(BuildStats(dtype, st, high, options.bucketCounts)))
  }

  /** The distinct values of an entry: those that pass the filter for a Safe or Warning column, none otherwise. */
  ghost predicate ExcelValueRules(u: Option<seq<SafeValue>>, cls: Classification, st: Stats.StatState, k: nat) {
    && (cls == Safe || cls == Warning ==> ExportsPassing(u, st.unique.values, st.unique.valueCounts, k))
    && (cls != Safe && cls != Warning ==> u.None?)
  }

  /** The whole entry of an Excel column with final tracker `st`. */
  ghost predicate ExcelColumnRules(col: ColumnSchema, header: string, check: ColumnNameResult, index: nat, dtype: DType,
                                   st: Stats.StatState, options: ProcessingOptions)
  {
    ExcelHeadRules(col, header, check, index, dtype, st, options)
    && ExcelValueRules(col.uniqueValues, col.classification, st, options.kAnonymity)
  }

  /** The entry before its distinct values are filled in. */
  method ExcelColumnHead(header: string, check: ColumnNameResult, index: nat, dtype: DType,
                         st: Stats.StatState, options: ProcessingOptions) returns (col: ColumnSchema)
    requires CountsFit(st)
    ensures ExcelHeadRules(col, header, check, index, dtype, st, options) && col.uniqueValues.None?
  {
    var high := st.unique.highCardinality;
    var classification := check.classification;
    if high {
      classification := HighCardinality;
    }
    col := NewColumnSchema(NameValue(classification, header), index, dtype).(classification := classification);
    if check.warning.Some? {
      col := col.(warnings := col.warnings + [check.warning.value]);
    }
    col := col.(stats := Some(BuildStats(dtype, st, high, options.bucketCounts)));
  }

  /** The distinct values an entry of class `cls` exports. */
  method ExcelUniqueValues(cls: Classification, st: Stats.StatState, k: nat) returns (u: Option<seq<SafeValue>>)
    ensures ExcelValueRules(u, cls, st, k)
  {
    u := None;
    if cls == Safe || cls == Warning {
      var safeValues := ExportableValues(st.unique.values, Some(st.unique.valueCounts), k);
      u := NonEmpty(safeValues);
      if safeValues != [] {
        assert ShortString(safeValues[0].s) in safeValues;
      }
    }
  }

  /** One entry per column, in column order. */
  method AssembleExcelColumns(names: seq<string>, checks: seq<ColumnNameResult>, dtypes: seq<DType>,
                              stats: seq<Stats.StatState>, options: ProcessingOptions) returns (columns: seq<ColumnSchema>)
    requires |names| == |checks| == |dtypes| == |stats|
    requires forall c :: 0 <= c < |stats| ==> CountsFit(stats[c])
    ensures |columns| == |dtypes|
    ensures forall c :: 0 <= c < |dtypes| ==>
      ExcelColumnRules(columns[c], names[c], checks[c], c, dtypes[c], stats[c], options)
  {
    columns := [];
    var c := 0;
    while c < |dtypes|
      invariant 0 <= c <= |dtypes| && |columns| == c
      invariant forall d :: 0 <= d < c ==>
        ExcelColumnRules(columns[d], names[d], checks[d], d, dtypes[d], stats[d], options)
    {
      var col := ExcelColumnHead(names[c], checks[c], c, dtypes[c], stats[c], options);
      var u := ExcelUniqueValues(col.classification, stats[c], options.kAnonymity);
      col := col.(uniqueValues := u);
      columns := columns + [col];
      c := c + 1;
    }
  }

  // ---------------------------------------------------------------------
  // process_sheet
  // ---------------------------------------------------------------------

  /** A worksheet's used range: its rows of cells and its width. */
  datatype Range = Range(rows: seq<seq<Data>>, width: nat)

  /** `Range::is_empty`: the range holds no cell. */
  predicate IsEmptyRange(range: Range) {
    range.rows == [] || range.width == 0
  }

  /** The header row rendered cell by cell. */
  function HeaderRow(rd: Renderers, row: seq<Data>): (headers: seq<string>)
    ensures |headers| == |row|
    ensures forall i :: 0 <= i < |row| ==> headers[i] == DataToString(rd, row[i])
  {
    seq(|row|, i requires 0 <= i < |row| => DataToString(rd, row[i]))
  }

  /** `headers.len().max(col_count)`. */
  function NumColumns(headers: seq<string>, width: nat): (n: nat)
    ensures n >= |headers| && n >= width
    ensures n == |headers| || n == width
  {
    if |headers| >= width then |headers| else width
  }

  /** Every column's header: the header row's cell, or its default name beyond the header row. */
  function ColumnHeaders(headers: seq<string>, numCols: nat): (names: seq<string>)
    ensures |names| == numCols
    ensures forall c :: 0 <= c < numCols ==> names[c] == HeaderOf(headers, c)
  {
    seq(numCols, c requires 0 <= c < numCols => HeaderOf(headers, c))
  }

  /**
   * In a rectangular range, as calamine builds them, the header row has a
   * cell for every column, so every column is headed by its own cell and no
   * default name is used.
   */
  lemma RectangularHeaders(rd: Renderers, range: Range)
    requires !IsEmptyRange(range) && forall row <- range.rows :: |row| == range.width
    ensures var headers := HeaderRow(rd, range.rows[0]);
      && NumColumns(headers, range.width) == range.width
      && ColumnHeaders(headers, range.width) == headers
  {
    var headers := HeaderRow(rd, range.rows[0]);
    assert range.rows[0] in range.rows;
    assert forall c :: 0 <= c < range.width ==> HeaderOf(headers, c) == headers[c];
  }

  /** Column `c`, headed `header` with name check `check`, as read from the data rows `dataRows`. */
  ghost predicate ExcelColumnRead(p: Inference.Parsers, rd: Renderers, dataRows: seq<seq<Data>>,
                                  options: ProcessingOptions, col: ColumnSchema, header: string,
                                  check: ColumnNameResult, c: nat)
  {
    var cells := ColumnCells(dataRows, c);
    ExcelColumnRules(col, header, check, c, ColumnType(p, InferenceTexts(rd, cells)),
                     Stats.ObserveAll(MAX_UNIQUE_VALUES, CellCalls(rd, cells)), options)
  }

  /**
   * The sheet made from worksheet `name` at position `index` with range
   * `range`: an empty range gives an exact row count of zero and no
   * columns; otherwise the row count is that of the rows after the header
   * row, bucketed or exact, and there is one entry per column of the wider
   * of the header row and the range.
   */
  ghost predicate SheetRead(sheet: SheetSchema, name: string, index: nat, range: Range, options: ProcessingOptions,
                            p: Inference.Parsers, rd: Renderers)
    requires |range.rows| <= U64_LIMIT
  {
    && sheet.name == name && sheet.index == index && sheet.warnings == []
    && (IsEmptyRange(range) ==> sheet.rowCount == Integer(0) && sheet.columns == [])
    && (!IsEmptyRange(range) ==>
          var headers := HeaderRow(rd, range.rows[0]);
          var names := ColumnHeaders(headers, NumColumns(headers, range.width));
          && sheet.rowCount == SafeCount(|range.rows| - 1, options.bucketCounts)
          && |sheet.columns| == |names|
          && forall c :: 0 <= c < |sheet.columns| ==>
               ExcelColumnRead(p, rd, range.rows[1..], options, sheet.columns[c], names[c], NameChecks(names)[c], c))
  }

  /** The entries assembled after the pass, restated in terms of each column's cells. */
  lemma ColumnsFromScan(p: Inference.Parsers, rd: Renderers, dataRows: seq<seq<Data>>, options: ProcessingOptions,
                        names: seq<string>, checks: seq<ColumnNameResult>, states: seq<Inference.InferenceState>,
                        stats: seq<Stats.StatState>, dtypes: seq<DType>, columns: seq<ColumnSchema>)
    requires Scanned(p, rd, states, stats, AllCells(dataRows, |states|))
    requires |names| == |checks| == |dtypes| == |states| == |columns|
    requires forall c :: 0 <= c < |states| ==> dtypes[c] == Inference.InferredType(Inference.FinalizeStep(p, states[c]))
    requires forall c :: 0 <= c < |dtypes| ==>
      ExcelColumnRules(columns[c], names[c], checks[c], c, dtypes[c], stats[c], options)
    ensures forall c :: 0 <= c < |columns| ==>
      ExcelColumnRead(p, rd, dataRows, options, columns[c], names[c], checks[c], c)
  {
    forall c | 0 <= c < |columns|
      ensures ExcelColumnRead(p, rd, dataRows, options, columns[c], names[c], checks[c], c)
    {
      assert ColumnCells(dataRows, c) == AllCells(dataRows, |states|)[c];
    }
  }

  /** The columns of a non-empty range: the pass over the data rows, the inferencers finalized, one entry per column. */
  method ReadColumns(p: Inference.Parsers, rd: Renderers, names: seq<string>,
                     dataRows: seq<seq<Data>>, options: ProcessingOptions) returns (columns: seq<ColumnSchema>)
    requires |dataRows| < U64_LIMIT
    ensures |columns| == |names|
    ensures forall c :: 0 <= c < |names| ==>
      ExcelColumnRead(p, rd, dataRows, options, columns[c], names[c], NameChecks(names)[c], c)
  {
    var states, stats := ScanRows(p, rd, |names|, dataRows);
    var dtypes := FinalTypes(p, states);
    ScannedCountsFit(p, rd, states, stats, dataRows, |names|);
    var checks := NameChecks(names);
    columns := AssembleExcelColumns(names, checks, dtypes, stats, options);
    ColumnsFromScan(p, rd, dataRows, options, names, checks, states, stats, dtypes, columns);
  }

  /** `process_sheet`, once the worksheet's range has been obtained. */
  method ProcessSheet(name: string, index: nat, range: Range, options: ProcessingOptions,
                      p: Inference.Parsers, rd: Renderers) returns (sheet: SheetSchema)
    requires |range.rows| <= U64_LIMIT
    ensures SheetRead(sheet, name, index, range, options, p, rd)
  {
    sheet := NewSheetSchema(name, index);
    if IsEmptyRange(range) {
      sheet := sheet.(rowCount := Integer(0));
      return;
    }
    var headers := HeaderRow(rd, range.rows[0]);
    var numCols := NumColumns(headers, range.width);
    var dataRows := |range.rows| - 1;
    var names := ColumnHeaders(headers, numCols);
    var columns := ReadColumns(p, rd, names, range.rows[1..], options);
    sheet := sheet.(rowCount := SafeCount(dataRows, options.bucketCounts), columns := columns);
  }

  // ---------------------------------------------------------------------
  // read
  // ---------------------------------------------------------------------

  /** A worksheet of the workbook: its name and its range, or the message of the error obtaining the range. */
  datatype Worksheet = Worksheet(name: string, range: Range) | Unreadable(name: string, message: string)

  /** Every range the workbook yields fits the 64-bit row count. */
  predicate RangesFit(worksheets: seq<Worksheet>) {
    forall i :: 0 <= i < |worksheets| && worksheets[i].Worksheet? ==> |worksheets[i].range.rows| <= U64_LIMIT
  }

  /**
   * The outcome of reading the worksheets: the first one whose range cannot
   * be obtained fails the read with an Excel error carrying its message;
   * otherwise there is one sheet per worksheet, in workbook order, each
   * made by `process_sheet`.
   */
  ghost predicate WorksheetsRead(r: Result<seq<SheetSchema>>, worksheets: seq<Worksheet>, options: ProcessingOptions,
                                 p: Inference.Parsers, rd: Renderers)
    requires RangesFit(worksheets)
  {
    && (r.Err? <==> exists i :: 0 <= i < |worksheets| && worksheets[i].Unreadable?)
    && (r.Err? ==>
          exists i :: 0 <= i < |worksheets| && worksheets[i].Unreadable? &&
            r.error == ExcelError(worksheets[i].message) && forall j :: 0 <= j < i ==> worksheets[j].Worksheet?)
    && (r.Ok? ==>
          && |r.value| == |worksheets|
          && forall i :: 0 <= i < |worksheets| ==>
               SheetRead(r.value[i], worksheets[i].name, i, worksheets[i].range, options, p, rd))
  }

  /**
   * The outcome of `read`: a workbook that cannot be opened fails with its
   * error; an opened one is read worksheet by worksheet.
   */
  ghost predicate WorkbookRead(r: Result<seq<SheetSchema>>, workbook: Result<seq<Worksheet>>, options: ProcessingOptions,
                               p: Inference.Parsers, rd: Renderers)
    requires workbook.Ok? ==> RangesFit(workbook.value)
  {
    && (workbook.Err? ==> r == Err(workbook.error))
    && (workbook.Ok? ==> WorksheetsRead(r, workbook.value, options, p, rd))
  }

  /** The loop over the worksheets, stopping at the first one that fails. */
  method ReadWorksheets(worksheets: seq<Worksheet>, options: ProcessingOptions, p: Inference.Parsers, rd: Renderers)
    returns (r: Result<seq<SheetSchema>>)
    requires RangesFit(worksheets)
    ensures WorksheetsRead(r, worksheets, options, p, rd)
  {
    var sheets: seq<SheetSchema> := [];
    var i := 0;
    while i < |worksheets|
      invariant 0 <= i <= |worksheets| && |sheets| == i
      invariant forall j :: 0 <= j < i ==> worksheets[j].Worksheet?
      invariant forall j :: 0 <= j < i ==>
        SheetRead(sheets[j], worksheets[j].name, j, worksheets[j].range, options, p, rd)
    {
      var worksheet := worksheets[i];
      if worksheet.Unreadable? {
        return Err(ExcelError(worksheet.message));
      }
      var sheet := ProcessSheet(worksheet.name, i, worksheet.range, options, p, rd);
      sheets := sheets + [sheet];
      i := i + 1;
    }
    r := Ok(sheets);
  }

  /** `read`: the workbook, once opened, read worksheet by worksheet. */
  method Read(workbook: Result<seq<Worksheet>>, options: ProcessingOptions, p: Inference.Parsers, rd: Renderers)
    returns (r: Result<seq<SheetSchema>>)
    requires workbook.Ok? ==> RangesFit(workbook.value)
    ensures WorkbookRead(r, workbook, options, p, rd)
  {
    if workbook.Err? {
      return Err(workbook.error);
    }
    r := ReadWorksheets(workbook.value, options, p, rd);
  }

  /**
   * `read_with_recoding` for Excel, the readers' default: the sheets `read`
   * gives, and an empty registry, so an Excel file never has a sidekick.
   */
  method ReadWithRecoding(workbook: Result<seq<Worksheet>>, options: ProcessingOptions, p: Inference.Parsers,
                          rd: Renderers) returns (r: Result<seq<SheetSchema>>, registry: Recoding.RecodeRegistry)
    requires workbook.Ok? ==> RangesFit(workbook.value)
    ensures WorkbookRead(r, workbook, options, p, rd)
    ensures fresh(registry) && registry.Valid() && registry.recoders == map[] && !registry.HasRecodings()
  {
    r := Read(workbook, options, p, rd);
    registry := new Recoding.RecodeRegistry();
  }

  // ---------------------------------------------------------------------
  // What the rules mean
  // ---------------------------------------------------------------------

  /**
   * An overflowed tracker makes a column HighCardinality even when its
   * name matched a PHI pattern; its name is then exported like any other
   * (unless over-long), it exports no values and its distinct count is withheld.
   */
  lemma HighCardinalityOverridesPhi(col: ColumnSchema, header: string, check: ColumnNameResult, index: nat,
                                    dtype: DType, st: Stats.StatState, options: ProcessingOptions)
    requires ExcelColumnRules(col, header, check, index, dtype, st, options)
    requires st.unique.highCardinality && CountsFit(st)
    ensures col.classification == HighCardinality
    ensures col.name == FromString(header, LONG_NAME_REASON)
    ensures col.uniqueValues.None?
    ensures col.stats.value.uniqueCount == Some(Suppressed(HIGH_CARDINALITY_REASON))
  {
  }

  /** A Phi or Recode column that has not overflowed keeps its class, and exports no values. */
  lemma ExcelNeverExportsPhiOrRecode(col: ColumnSchema, header: string, check: ColumnNameResult, index: nat,
                                     dtype: DType, st: Stats.StatState, options: ProcessingOptions)
    requires ExcelColumnRules(col, header, check, index, dtype, st, options)
    requires check.classification == Phi || check.classification == Recode
    ensures !st.unique.highCardinality ==> col.classification == check.classification
    ensures col.uniqueValues.None?
    ensures check.classification == Phi && !st.unique.highCardinality ==> col.name == Suppressed(PHI_NAME_REASON)
  {
  }

  /**
   * Every value an entry exports passes the suppression rules for its
   * count and the column's class, and every tracked value that does is
   * exported.
   */
  lemma ExportedValuesAreSafe(col: ColumnSchema, header: string, check: ColumnNameResult, index: nat,
                              dtype: DType, st: Stats.StatState, options: ProcessingOptions)
    requires ExcelColumnRules(col, header, check, index, dtype, st, options)
    requires col.uniqueValues.Some?
    ensures col.classification == Safe || col.classification == Warning
    ensures forall v :: ShortString(v) in col.uniqueValues.value <==>
      v in st.unique.values &&
      Suppression.IsSafeForExport(v, CountOr1(Some(st.unique.valueCounts), v), options.kAnonymity, col.classification)
  {
    forall v
      ensures ShortString(v) in col.uniqueValues.value <==>
        v in st.unique.values &&
        Suppression.IsSafeForExport(v, CountOr1(Some(st.unique.valueCounts), v), options.kAnonymity, col.classification)
    {
      ExportableIsSafeForExport(v, CountOr1(Some(st.unique.valueCounts), v), options.kAnonymity, col.classification);
    }
  }

  /** A column beyond the header row is named after its position, counting from one. */
  lemma DefaultHeader()
    ensures HeaderOf([], 0) == "Column1"
    ensures HeaderOf(["id"], 2) == "Column3"
  {
  }
}
