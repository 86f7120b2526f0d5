/**
 * The CSV (and TSV) reader: the header row is classified, Recode columns are
 * registered with a recoder, a first pass over the records infers each
 * column's type, a second pass feeds each column's tracker (with Recode
 * columns' values replaced by their labels), and each column's schema entry
 * is assembled from its name check, type and tracker.
 *
 * The records arrive already split into fields; cells beyond the header's
 * width are ignored. Each column's inference and tracker state is kept as a
 * value and advanced by the step functions the tracker classes are proved
 * against.
 */
module CsvReader {
  import opened Strings
  import opened Types
  import opened Sorting
  import opened Bucketing
  import opened ColumnNames
  import opened Recoding
  import opened ColumnAssembly
  import Inference
  import Stats

  // ---------------------------------------------------------------------
  // determine_recode_prefix
  // ---------------------------------------------------------------------

  /** The keywords looked for, rule by rule, and the prefix each rule gives. */
  const PREFIX_KEYWORDS: seq<seq<string>> := [["hospital"], ["clinic"], ["facility"], ["center", "centre"], ["location"]]
  const PREFIXES: seq<string> := ["Hospital", "Clinic", "Facility", "Center", "Location"]
  const DEFAULT_PREFIX: string := "Site"

  /** Rule `i` applies to the lower-cased name. */
  predicate RuleHits(lower: string, i: nat)
    requires i < |PREFIX_KEYWORDS|
  {
    exists w :: w in PREFIX_KEYWORDS[i] && Contains(lower, w)
  }

  /**
   * `determine_recode_prefix`: the prefix of the first rule whose keyword
   * occurs in the lower-cased name, "Site" when none does.
   */
  function RecodePrefix(columnName: string): (r: string)
    ensures forall i :: 0 <= i < |PREFIXES| ==>
      (RuleHits(ToLower(columnName), i) && (forall j :: 0 <= j < i ==> !RuleHits(ToLower(columnName), j))) ==> r == PREFIXES[i]
    ensures (forall i :: 0 <= i < |PREFIXES| ==> !RuleHits(ToLower(columnName), i)) ==> r == DEFAULT_PREFIX
  {
    var lower := ToLower(columnName);
    if Contains(lower, "hospital") then
      assert "hospital" in PREFIX_KEYWORDS[0] && RuleHits(lower, 0);
      "Hospital"
    else if Contains(lower, "clinic") then
      assert "clinic" in PREFIX_KEYWORDS[1] && RuleHits(lower, 1);
      "Clinic"
    else if Contains(lower, "facility") then
      assert "facility" in PREFIX_KEYWORDS[2] && RuleHits(lower, 2);
      "Facility"
    else if Contains(lower, "center") || Contains(lower, "centre") then
      assert "center" in PREFIX_KEYWORDS[3] && "centre" in PREFIX_KEYWORDS[3] && RuleHits(lower, 3);
      "Center"
    else if Contains(lower, "location") then
      assert "location" in PREFIX_KEYWORDS[4] && RuleHits(lower, 4);
      "Location"
    else "Site"
  }

  // ---------------------------------------------------------------------
  // The second pass over one column
  // ---------------------------------------------------------------------

  /** `parse_numeric`: the trimmed text read as a 64-bit float, by the given parser. */
  function ParseNumeric(parseF64: string -> Option<real>, value: string): Option<real> {
    parseF64(Trim(value))
  }

  /** The text a tracker call carries to the distinct-value tracker. */
  function TrackedText(o: Stats.Observation): string
    requires !o.MissingCell?
  {
    if o.NumericCell? then o.raw else o.text
  }

  /**
   * The text a non-missing cell is tracked under: its own outside a recoded
   * column; in a recoded column its label, the one it already has or the
   * next one, which is then recorded.
   */
  function RecodeCell(prefix: Option<string>, m: map<string, string>, field: string): (r: (map<string, string>, string))
    ensures prefix.None? ==> r == (m, field)
    ensures prefix.Some? ==>
      && field in r.0 && r.1 == r.0[field]
      && r.0 == (if field in m then m else m[field := Tagged(prefix.value, |m|)])
  {
    if prefix.None? then (m, field)
    else if field in m then (m, m[field])
    else (m[field := Tagged(prefix.value, |m|)], Tagged(prefix.value, |m|))
  }

  /**
   * The tracker call for a non-missing cell: numeric when the column is
   * Integer or Numeric and the cell parses as a number, a string otherwise.
   */
  function CallFor(dtype: DType, parseF64: string -> Option<real>, field: string, tracked: string): (o: Stats.Observation)
    ensures !o.MissingCell? && TrackedText(o) == tracked
    ensures o.NumericCell? <==> IsNumericType(dtype) && ParseNumeric(parseF64, field).Some?
    ensures o.NumericCell? ==> o.value == ParseNumeric(parseF64, field).value
  {
    var num := ParseNumeric(parseF64, field);
    if IsNumericType(dtype) && num.Some? then Stats.NumericCell(num.value, tracked)
    else Stats.TextCell(tracked)
  }

  /**
   * One cell of the second pass: a missing cell is counted as missing; any
   * other cell is tracked under the text `RecodeCell` gives it, by the call
   * `CallFor` gives it.
   */
  function TrackCell(dtype: DType, prefix: Option<string>, parseF64: string -> Option<real>,
                     m: map<string, string>, field: string): (r: (map<string, string>, Stats.Observation))
    ensures r.1.MissingCell? <==> Inference.IsMissing(field)
    ensures Inference.IsMissing(field) || prefix.None? ==> r.0 == m
    ensures !Inference.IsMissing(field) && prefix.None? ==> TrackedText(r.1) == field
    ensures !Inference.IsMissing(field) && prefix.Some? ==>
      && field in r.0 && TrackedText(r.1) == r.0[field]
      && r.0 == (if field in m then m else m[field := Tagged(prefix.value, |m|)])
    ensures r.1.NumericCell? <==>
      !Inference.IsMissing(field) && IsNumericType(dtype) && ParseNumeric(parseF64, field).Some?
    ensures r.1.NumericCell? ==> r.1.value == ParseNumeric(parseF64, field).value
  {
    if Inference.IsMissing(field) then (m, Stats.MissingCell)
    else
      var recoded := RecodeCell(prefix, m, field);
      (recoded.0, CallFor(dtype, parseF64, field, recoded.1))
  }

  /** A cell that is blank once trimmed is missing. */
  lemma BlankIsMissing(field: string)
    requires Trim(field) == []
    ensures Inference.IsMissing(field)
  {
    assert EqIgnoreAsciiCase(Trim(field), Inference.MISSING_TOKENS[0]);
  }

  /**
   * The second pass reads numbers with the f64 parser the type inference
   * uses: in an Integer or Numeric column a present cell is tracked as a
   * number exactly when `is_numeric` accepts it, and with the value that
   * parser reads from its trimmed text.
   */
  lemma NumericCellsAreNumeric(p: Inference.Parsers, dtype: DType, prefix: Option<string>,
                               m: map<string, string>, field: string)
    requires IsNumericType(dtype)
    ensures var o := TrackCell(dtype, prefix, p.parseF64, m, field).1;
      && (!Inference.IsMissing(field) ==> (o.NumericCell? <==> Inference.IsNumeric(p, field)))
      && (o.NumericCell? ==> p.parseF64(Trim(field)) == Some(o.value))
  {
    if Trim(field) == [] {
      BlankIsMissing(field);
    }
  }

  /**
   * The second pass over one column: the recoder's mappings afterwards
   * (empty for a column that is not recoded) and the tracker calls made,
   * one per cell.
   */
  function ColumnPass(dtype: DType, prefix: Option<string>, parseF64: string -> Option<real>,
                      cells: seq<string>): (r: (map<string, string>, seq<Stats.Observation>))
    ensures |r.1| == |cells|
    ensures prefix.None? ==> r.0 == map[]
    decreases |cells|
  {
    if cells == [] then (map[], [])
    else
      var (m, os) := ColumnPass(dtype, prefix, parseF64, cells[..|cells| - 1]);
      var (m', o) := TrackCell(dtype, prefix, parseF64, m, cells[|cells| - 1]);
      (m', os + [o])
  }

  lemma ColumnPassSnoc(dtype: DType, prefix: Option<string>, parseF64: string -> Option<real>,
                       cells: seq<string>, field: string)
    ensures var (m, os) := ColumnPass(dtype, prefix, parseF64, cells);
      var (m', o) := TrackCell(dtype, prefix, parseF64, m, field);
      ColumnPass(dtype, prefix, parseF64, cells + [field]) == (m', os + [o])
  {
    assert (cells + [field])[..|cells|] == cells;
  }

  /** The call one cell makes, as the second pass records it. */
  ghost predicate CallFits(dtype: DType, prefix: Option<string>, parseF64: string -> Option<real>,
                           field: string, o: Stats.Observation)
  {
    && (o.MissingCell? <==> Inference.IsMissing(field))
    && (o.NumericCell? <==> !Inference.IsMissing(field) && IsNumericType(dtype) && ParseNumeric(parseF64, field).Some?)
    && (o.NumericCell? ==> o.value == ParseNumeric(parseF64, field).value)
    && (prefix.None? && !o.MissingCell? ==> TrackedText(o) == field)
  }

  lemma TrackCellFits(dtype: DType, prefix: Option<string>, parseF64: string -> Option<real>,
                      m: map<string, string>, field: string)
    ensures CallFits(dtype, prefix, parseF64, field, TrackCell(dtype, prefix, parseF64, m, field).1)
  {
  }

  /** The last cell's call is the one `TrackCell` makes. */
  lemma CallAtLast(dtype: DType, prefix: Option<string>, parseF64: string -> Option<real>, cells: seq<string>)
    requires cells != []
    ensures CallFits(dtype, prefix, parseF64, cells[|cells| - 1], ColumnPass(dtype, prefix, parseF64, cells).1[|cells| - 1])
  {
    var ys, field := cells[..|cells| - 1], cells[|cells| - 1];
    var m := ColumnPass(dtype, prefix, parseF64, ys).0;
    TrackCellFits(dtype, prefix, parseF64, m, field);
  }

  /** An earlier cell's call is the one the pass over the shorter column made. */
  lemma CallAtEarlier(dtype: DType, prefix: Option<string>, parseF64: string -> Option<real>, cells: seq<string>, i: nat)
    requires i < |cells| - 1
    requires CallFits(dtype, prefix, parseF64, cells[i], ColumnPass(dtype, prefix, parseF64, cells[..|cells| - 1]).1[i])
    ensures CallFits(dtype, prefix, parseF64, cells[i], ColumnPass(dtype, prefix, parseF64, cells).1[i])
  {
    var os := ColumnPass(dtype, prefix, parseF64, cells[..|cells| - 1]).1;
    assert ColumnPass(dtype, prefix, parseF64, cells).1[i] == os[i];
  }

  lemma ColumnPassCallsStep(dtype: DType, prefix: Option<string>, parseF64: string -> Option<real>, cells: seq<string>)
    requires cells != []
    requires var os := ColumnPass(dtype, prefix, parseF64, cells[..|cells| - 1]).1;
      forall i :: 0 <= i < |cells| - 1 ==> CallFits(dtype, prefix, parseF64, cells[i], os[i])
    ensures var os := ColumnPass(dtype, prefix, parseF64, cells).1;
      forall i :: 0 <= i < |cells| ==> CallFits(dtype, prefix, parseF64, cells[i], os[i])
  {
    forall i | 0 <= i < |cells|
      ensures CallFits(dtype, prefix, parseF64, cells[i], ColumnPass(dtype, prefix, parseF64, cells).1[i])
    {
      if i < |cells| - 1 {
        CallAtEarlier(dtype, prefix, parseF64, cells, i);
      } else {
        CallAtLast(dtype, prefix, parseF64, cells);
      }
    }
  }

  /**
   * Cell by cell, the second pass makes the call the cell calls for: missing
   * exactly for missing cells, numeric exactly for parseable cells of an
   * Integer or Numeric column, and, outside recoded columns, under the
   * cell's own text.
   */
  lemma {:induction false} ColumnPassCalls(dtype: DType, prefix: Option<string>, parseF64: string -> Option<real>,
                                           cells: seq<string>)
    ensures var os := ColumnPass(dtype, prefix, parseF64, cells).1;
      forall i :: 0 <= i < |cells| ==> CallFits(dtype, prefix, parseF64, cells[i], os[i])
    decreases |cells|
  {
    if cells != [] {
      ColumnPassCalls(dtype, prefix, parseF64, cells[..|cells| - 1]);
      ColumnPassCallsStep(dtype, prefix, parseF64, cells);
    }
  }

  /** The first `n` labels a recoder with this prefix hands out. */
  function LabelsBelow(prefix: string, n: nat): set<string> {
    set k | 0 <= k < n :: Tagged(prefix, k)
  }

  lemma LabelsBelowSnoc(prefix: string, n: nat)
    ensures LabelsBelow(prefix, n + 1) == LabelsBelow(prefix, n) + {Tagged(prefix, n)}
    ensures Tagged(prefix, n) !in LabelsBelow(prefix, n)
  {
    forall k | 0 <= k < n ensures Tagged(prefix, k) != Tagged(prefix, n) {
      TaggedInjective(prefix, k, n);
    }
  }

  /**
   * What holds of a recoded column after the cells `cells`, with calls `os`:
   * each cell not counted as missing is tracked as its label, the mappings
   * hold only such cells, the labels are exactly the first ones handed out,
   * and no two cells share a label.
   */
  ghost predicate RecodedFacts(prefix: string, cells: seq<string>, m: map<string, string>, os: seq<Stats.Observation>)
    requires |os| == |cells|
  {
    && (forall i :: 0 <= i < |cells| && !os[i].MissingCell? ==> cells[i] in m && TrackedText(os[i]) == m[cells[i]])
    && (forall v :: v in m ==> exists i :: 0 <= i < |cells| && !os[i].MissingCell? && cells[i] == v)
    && m.Values == LabelsBelow(prefix, |m|)
    && (forall a, b :: a in m && b in m && a != b ==> m[a] != m[b])
  }

  /** One more cell: the mappings still hold exactly the tracked cells, each under its label. */
  lemma RecodedKeysStep(dtype: DType, prefix: string, parseF64: string -> Option<real>,
                        cells: seq<string>, field: string, m: map<string, string>, os: seq<Stats.Observation>)
    requires |os| == |cells|
    requires forall i :: 0 <= i < |cells| && !os[i].MissingCell? ==> cells[i] in m && TrackedText(os[i]) == m[cells[i]]
    requires forall v :: v in m ==> exists i :: 0 <= i < |cells| && !os[i].MissingCell? && cells[i] == v
    ensures var (m', o) := TrackCell(dtype, Some(prefix), parseF64, m, field);
      var cells', os' := cells + [field], os + [o];
      && (forall i :: 0 <= i < |cells'| && !os'[i].MissingCell? ==> cells'[i] in m' && TrackedText(os'[i]) == m'[cells'[i]])
      && (forall v :: v in m' ==> exists i :: 0 <= i < |cells'| && !os'[i].MissingCell? && cells'[i] == v)
  {
    var (m', o) := TrackCell(dtype, Some(prefix), parseF64, m, field);
    var cells', os' := cells + [field], os + [o];
    assert forall v :: v in m ==> v in m' && m'[v] == m[v];
    forall i | 0 <= i < |cells'| && !os'[i].MissingCell?
      ensures cells'[i] in m' && TrackedText(os'[i]) == m'[cells'[i]]
    {
      if i < |cells| {
        assert cells'[i] == cells[i] && os'[i] == os[i];
      }
    }
    forall v | v in m' ensures exists i :: 0 <= i < |cells'| && !os'[i].MissingCell? && cells'[i] == v {
      if v in m {
        var i :| 0 <= i < |cells| && !os[i].MissingCell? && cells[i] == v;
        assert cells'[i] == cells[i] && os'[i] == os[i];
      } else {
        assert cells'[|cells|] == v && !os'[|cells|].MissingCell?;
      }
    }
  }

  /** A new original gets the next label: the labels stay the first ones handed out. */
  lemma LabelsExtendValues(prefix: string, m: map<string, string>, field: string)
    requires field !in m
    requires m.Values == LabelsBelow(prefix, |m|)
    ensures m[field := Tagged(prefix, |m|)].Values == LabelsBelow(prefix, |m| + 1)
  {
    var tag := Tagged(prefix, |m|);
    var m' := m[field := tag];
    LabelsBelowSnoc(prefix, |m|);
    assert m'[field] == tag;
    forall v | v in m.Values ensures v in m'.Values {
      var a :| a in m && m[a] == v;
      assert a != field && m'[a] == v;
    }
    forall v | v in m'.Values ensures v in m.Values || v == tag {
      var a :| a in m' && m'[a] == v;
      if a != field {
        assert a in m && m[a] == v;
      }
    }
  }

  /** A new original gets the next label, which no earlier original has. */
  lemma LabelsExtendInjective(prefix: string, m: map<string, string>, field: string)
    requires field !in m
    requires m.Values == LabelsBelow(prefix, |m|)
    requires forall a, b :: a in m && b in m && a != b ==> m[a] != m[b]
    ensures var m' := m[field := Tagged(prefix, |m|)];
      forall a, b :: a in m' && b in m' && a != b ==> m'[a] != m'[b]
  {
    LabelsBelowSnoc(prefix, |m|);
    assert forall a :: a in m ==> m[a] in m.Values;
  }

  /** A new original gets the next label: the labels stay the first ones handed out, none shared. */
  lemma LabelsExtend(prefix: string, m: map<string, string>, field: string)
    requires field !in m
    requires m.Values == LabelsBelow(prefix, |m|)
    requires forall a, b :: a in m && b in m && a != b ==> m[a] != m[b]
    ensures var m' := m[field := Tagged(prefix, |m|)];
      && m'.Values == LabelsBelow(prefix, |m'|)
      && (forall a, b :: a in m' && b in m' && a != b ==> m'[a] != m'[b])
  {
    LabelsExtendValues(prefix, m, field);
    LabelsExtendInjective(prefix, m, field);
  }

  /** One more cell: the labels stay the first ones handed out, none shared. */
  lemma RecodedLabelsStep(dtype: DType, prefix: string, parseF64: string -> Option<real>,
                          field: string, m: map<string, string>)
    requires m.Values == LabelsBelow(prefix, |m|)
    requires forall a, b :: a in m && b in m && a != b ==> m[a] != m[b]
    ensures var m' := TrackCell(dtype, Some(prefix), parseF64, m, field).0;
      && m'.Values == LabelsBelow(prefix, |m'|)
      && (forall a, b :: a in m' && b in m' && a != b ==> m'[a] != m'[b])
  {
    if TrackCell(dtype, Some(prefix), parseF64, m, field).0 != m {
      LabelsExtend(prefix, m, field);
    }
  }

  /** A recoded column's mappings after one more cell, given what held before it. */
  lemma RecodedStep(dtype: DType, prefix: string, parseF64: string -> Option<real>,
                    cells: seq<string>, field: string, m: map<string, string>, os: seq<Stats.Observation>)
    requires |os| == |cells| && RecodedFacts(prefix, cells, m, os)
    ensures var (m', o) := TrackCell(dtype, Some(prefix), parseF64, m, field);
      RecodedFacts(prefix, cells + [field], m', os + [o])
  {
    RecodedKeysStep(dtype, prefix, parseF64, cells, field, m, os);
    RecodedLabelsStep(dtype, prefix, parseF64, field, m);
  }

  /**
   * In a recoded column the recoder ends up with one mapping per distinct
   * non-missing cell, hands out exactly the first labels, never gives two
   * cells the same label, and every non-missing cell reaches the tracker
   * as its label.
   */
  lemma {:induction false} RecodedPass(dtype: DType, prefix: string, parseF64: string -> Option<real>, cells: seq<string>)
    ensures RecodedFacts(prefix, cells, ColumnPass(dtype, Some(prefix), parseF64, cells).0, ColumnPass(dtype, Some(prefix), parseF64, cells).1)
    decreases |cells|
  {
    if cells == [] {
      assert LabelsBelow(prefix, 0) == {};
    } else {
      var ys, field := cells[..|cells| - 1], cells[|cells| - 1];
      assert ys + [field] == cells;
      RecodedPass(dtype, prefix, parseF64, ys);
      ColumnPassSnoc(dtype, Some(prefix), parseF64, ys, field);
      var r := ColumnPass(dtype, Some(prefix), parseF64, ys);
      RecodedStep(dtype, prefix, parseF64, ys, field, r.0, r.1);
    }
  }

  /** The texts reaching the distinct-value tracker are the texts of the calls that are not missing. */
  lemma {:induction false} TrackedOfMembers(os: seq<Stats.Observation>)
    ensures forall t :: t in Stats.TrackedOf(os) <==>
      exists i :: 0 <= i < |os| && !os[i].MissingCell? && TrackedText(os[i]) == t
    decreases |os|
  {
    if os != [] {
      var ys := os[..|os| - 1];
      TrackedOfMembers(ys);
      forall t ensures t in Stats.TrackedOf(os) <==> exists i :: 0 <= i < |os| && !os[i].MissingCell? && TrackedText(os[i]) == t {
        if t in Stats.TrackedOf(ys) {
          var i :| 0 <= i < |ys| && !ys[i].MissingCell? && TrackedText(ys[i]) == t;
          assert os[i] == ys[i];
        }
        if exists i :: 0 <= i < |os| && !os[i].MissingCell? && TrackedText(os[i]) == t {
          var i :| 0 <= i < |os| && !os[i].MissingCell? && TrackedText(os[i]) == t;
          if i < |ys| {
            assert ys[i] == os[i];
          }
        }
      }
    }
  }

  /**
   * A recoded column's tracker only ever sees labels: every text it is fed
   * is one of the labels handed out, and none is an original cell unless
   * that cell happens to read like a label.
   */
  lemma RecodedTrackerSeesOnlyLabels(dtype: DType, prefix: string, parseF64: string -> Option<real>, cells: seq<string>)
    ensures forall t :: t in Stats.TrackedOf(ColumnPass(dtype, Some(prefix), parseF64, cells).1) ==>
      t in LabelsBelow(prefix, |ColumnPass(dtype, Some(prefix), parseF64, cells).0|)
  {
    var r := ColumnPass(dtype, Some(prefix), parseF64, cells);
    RecodedPass(dtype, prefix, parseF64, cells);
    FactsGiveLabels(prefix, cells, r.0, r.1);
  }

  lemma FactsGiveLabels(prefix: string, cells: seq<string>, m: map<string, string>, os: seq<Stats.Observation>)
    requires |os| == |cells| && RecodedFacts(prefix, cells, m, os)
    ensures forall t :: t in Stats.TrackedOf(os) ==> t in LabelsBelow(prefix, |m|)
  {
    TrackedOfMembers(os);
    forall t | t in Stats.TrackedOf(os) ensures t in LabelsBelow(prefix, |m|) {
      var i :| 0 <= i < |os| && !os[i].MissingCell? && TrackedText(os[i]) == t;
      assert cells[i] in m && m[cells[i]] in m.Values;
    }
  }

  // ---------------------------------------------------------------------
  // The two passes
  // ---------------------------------------------------------------------

  /** Each column's inferencer after observing the cells `cellsOf` of that column. */
  ghost predicate Observed(p: Inference.Parsers, states: seq<Inference.InferenceState>, cellsOf: seq<seq<string>>) {
    && |states| == |cellsOf|
    && forall c :: 0 <= c < |states| ==> states[c] == Inference.ObserveAll(p, Inference.INITIAL_STATE, cellsOf[c])
  }

  /** One record of the first pass: each cell within the header's width is observed by its column's inferencer. */
  method ObserveRecord(p: Inference.Parsers, states: seq<Inference.InferenceState>, ghost cellsOf: seq<seq<string>>,
                       record: seq<string>) returns (states': seq<Inference.InferenceState>, ghost cellsOf': seq<seq<string>>)
    requires Observed(p, states, cellsOf)
    ensures Observed(p, states', cellsOf')
    ensures |cellsOf'| == |cellsOf|
    ensures forall c :: 0 <= c < |cellsOf| ==> cellsOf'[c] == cellsOf[c] + (if c < |record| then [record[c]] else [])
  {
    states', cellsOf' := states, cellsOf;
    var j := 0;
    while j < |record|
      invariant 0 <= j <= |record| && |cellsOf'| == |cellsOf|
      invariant Observed(p, states', cellsOf')
      invariant forall c :: 0 <= c < |cellsOf| ==> cellsOf'[c] == cellsOf[c] + (if c < j then [record[c]] else [])
    {
      if j < |states'| {
        Inference.ObserveAllSnoc(p, Inference.INITIAL_STATE, cellsOf'[j], record[j]);
        states' := states'[j := Inference.ObserveStep(p, TYPE_INFERENCE_SAMPLE_SIZE, states'[j], record[j])];
        cellsOf' := cellsOf'[j := cellsOf'[j] + [record[j]]];
      }
      j := j + 1;
    }
  }

  /**
   * The first pass: every cell within the header's width is observed by its
   * column's inferencer, record by record; then each inferencer is finalized
   * and its type read off.
   */
  method InferColumnTypes(p: Inference.Parsers, numCols: nat, records: seq<seq<string>>) returns (dtypes: seq<DType>)
    ensures |dtypes| == numCols
    ensures forall c :: 0 <= c < numCols ==> dtypes[c] == ColumnType(p, ColumnCells(records, c))
  {
    var states := seq(numCols, _ => Inference.INITIAL_STATE);
    ghost var cellsOf := AllCells([], numCols);
    var row := 0;
    while row < |records|
      invariant 0 <= row <= |records|
      invariant Observed(p, states, cellsOf) && cellsOf == AllCells(records[..row], numCols)
    {
      states, cellsOf := ObserveRecord(p, states, cellsOf, records[row]);
      forall c | 0 <= c < numCols
        ensures ColumnCells(records[..row + 1], c) == ColumnCells(records[..row], c) + (if c < |records[row]| then [records[row][c]] else [])
      {
        ColumnCellsTake(records, row, c);
      }
      row := row + 1;
    }
    assert records[..|records|] == records;
    dtypes := FinalTypes(p, states);
  }

  /** The mappings a column's recoder holds, none for a column that is not recoded. */
  ghost function MappingsOf(registry: RecodeRegistry, c: nat): map<string, string>
    reads registry, registry.Repr
    requires registry.Valid()
  {
    if c in registry.recoders then registry.recoders[c].mappings else map[]
  }

  /** A non-missing cell's tracked text, from the live registry. */
  method RecodeField(registry: RecodeRegistry, prefix: Option<string>, column: nat, field: string,
                     ghost m: map<string, string>) returns (tracked: string)
    requires registry.Valid()
    requires column in registry.recoders <==> prefix.Some?
    requires column in registry.recoders ==> registry.recoders[column].prefix == prefix.value
    requires m == MappingsOf(registry, column)
    modifies registry.Repr
    ensures registry.Valid()
    ensures RecodeCell(prefix, m, field) == (MappingsOf(registry, column), tracked)
    ensures forall d :: d in registry.recoders && d != column ==> unchanged(registry.recoders[d])
  {
    tracked := field;
    if registry.IsRecoded(column) {
      assert registry.recoders[column].Valid();
      var recoded := registry.Recode(column, field);
      tracked := if recoded.Some? then recoded.value else field;
    }
  }

  /**
   * One cell of the second pass on the live registry: the cell is recoded
   * when its column is, and its call goes to the column's tracker state.
   */
  method TrackField(registry: RecodeRegistry, dtype: DType, prefix: Option<string>, parseF64: string -> Option<real>,
                    column: nat, field: string, st: Stats.StatState, ghost m: map<string, string>)
    returns (st': Stats.StatState, ghost o: Stats.Observation)
    requires registry.Valid() && Stats.StatInvariant(st)
    requires column in registry.recoders <==> prefix.Some?
    requires column in registry.recoders ==> registry.recoders[column].prefix == prefix.value
    requires m == MappingsOf(registry, column)
    modifies registry.Repr
    ensures registry.Valid()
    ensures TrackCell(dtype, prefix, parseF64, m, field) == (MappingsOf(registry, column), o)
    ensures st' == Stats.ObserveStep(st, o)
    ensures forall d :: d in registry.recoders && d != column ==> unchanged(registry.recoders[d])
  {
    if Inference.IsMissing(field) {
      st', o := Stats.MissingStep(st), Stats.MissingCell;
      return;
    }
    var tracked := RecodeField(registry, prefix, column, field, m);
    var num := ParseNumeric(parseF64, field);
    if IsNumericType(dtype) && num.Some? {
      st', o := Stats.NumericStep(st, num.value, tracked), Stats.NumericCell(num.value, tracked);
    } else {
      st', o := Stats.StringStep(st, tracked), Stats.TextCell(tracked);
    }
  }

  /** `maps` records each of the first `n` columns' recoder mappings. */
  ghost predicate MirrorsRegistry(registry: RecodeRegistry, maps: seq<map<string, string>>)
    reads registry, registry.Repr
    requires registry.Valid()
  {
    forall c :: 0 <= c < |maps| ==> maps[c] == MappingsOf(registry, c)
  }

  /**
   * The tracker states and the recoders' mappings after the second pass has
   * seen the cells `cellsOf[c]` of each column `c`.
   */
  ghost predicate Passed(dtypes: seq<DType>, prefixes: seq<Option<string>>, parseF64: string -> Option<real>,
                         stats: seq<Stats.StatState>, maps: seq<map<string, string>>, cellsOf: seq<seq<string>>)
  {
    && |stats| == |dtypes| == |prefixes| == |maps| == |cellsOf|
    && forall c :: 0 <= c < |dtypes| ==>
         && stats[c] == Stats.ObserveAll(MAX_UNIQUE_VALUES, ColumnPass(dtypes[c], prefixes[c], parseF64, cellsOf[c]).1)
         && maps[c] == ColumnPass(dtypes[c], prefixes[c], parseF64, cellsOf[c]).0
  }

  /** One more cell of column `j` moves that column's tracker and mappings on by `TrackCell`. */
  lemma PassedStep(dtypes: seq<DType>, prefixes: seq<Option<string>>, parseF64: string -> Option<real>,
                   stats: seq<Stats.StatState>, maps: seq<map<string, string>>, cellsOf: seq<seq<string>>,
                   j: nat, field: string, m': map<string, string>, o: Stats.Observation)
    requires Passed(dtypes, prefixes, parseF64, stats, maps, cellsOf) && j < |dtypes|
    requires TrackCell(dtypes[j], prefixes[j], parseF64, maps[j], field) == (m', o)
    ensures Stats.StatInvariant(stats[j])
    ensures Passed(dtypes, prefixes, parseF64, stats[j := Stats.ObserveStep(stats[j], o)], maps[j := m'],
                   cellsOf[j := cellsOf[j] + [field]])
  {
    var before := ColumnPass(dtypes[j], prefixes[j], parseF64, cellsOf[j]);
    ColumnPassSnoc(dtypes[j], prefixes[j], parseF64, cellsOf[j], field);
    Stats.ObserveAllSnoc(MAX_UNIQUE_VALUES, before.1, o);
  }

  /** One cell of column `j` in the second pass, on the registry and the tracker states. */
  method TrackColumnCell(registry: RecodeRegistry, dtypes: seq<DType>, prefixes: seq<Option<string>>,
                         parseF64: string -> Option<real>, stats: seq<Stats.StatState>,
                         ghost maps: seq<map<string, string>>, ghost cellsOf: seq<seq<string>>,
                         j: nat, field: string) returns (stats': seq<Stats.StatState>, ghost maps': seq<map<string, string>>)
    requires registry.Valid() && j < |dtypes|
    requires Passed(dtypes, prefixes, parseF64, stats, maps, cellsOf) && MirrorsRegistry(registry, maps)
    requires forall c: nat :: c in registry.recoders <==> c < |prefixes| && prefixes[c].Some?
    requires forall c :: c in registry.recoders ==> registry.recoders[c].prefix == prefixes[c].value
    modifies registry.Repr
    ensures registry.Valid()
    ensures Passed(dtypes, prefixes, parseF64, stats', maps', cellsOf[j := cellsOf[j] + [field]])
    ensures MirrorsRegistry(registry, maps')
  {
    var st', o := TrackField(registry, dtypes[j], prefixes[j], parseF64, j, field, stats[j], maps[j]);
    PassedStep(dtypes, prefixes, parseF64, stats, maps, cellsOf, j, field, MappingsOf(registry, j), o);
    stats' := stats[j := st'];
    maps' := maps[j := MappingsOf(registry, j)];
    forall c | 0 <= c < |maps'| && c != j
      ensures maps'[c] == MappingsOf(registry, c)
    {
      if c in registry.recoders {
        assert unchanged(registry.recoders[c]);
      }
    }
  }

  /**
   * The second pass: every cell within the header's width goes, record by
   * record, to its column's tracker, through the column's recoder when it
   * has one.
   */
  method TrackColumns(registry: RecodeRegistry, dtypes: seq<DType>, prefixes: seq<Option<string>>,
                      parseF64: string -> Option<real>, records: seq<seq<string>>)
    returns (stats: seq<Stats.StatState>, ghost maps: seq<map<string, string>>)
    requires registry.Valid() && |prefixes| == |dtypes|
    requires forall c: nat :: c in registry.recoders <==> c < |prefixes| && prefixes[c].Some?
    requires forall c :: c in registry.recoders ==>
      registry.recoders[c].prefix == prefixes[c].value && registry.recoders[c].mappings == map[]
    modifies registry.Repr
    ensures registry.Valid() && unchanged(registry)
    ensures Passed(dtypes, prefixes, parseF64, stats, maps, AllCells(records, |dtypes|)) && MirrorsRegistry(registry, maps)
  {
    var numCols := |dtypes|;
    stats := seq(numCols, _ => Stats.StatInit(MAX_UNIQUE_VALUES));
    ghost var cellsOf: seq<seq<string>> := AllCells([], numCols);
    maps := seq(numCols, _ => map[]);
    var row := 0;
    while row < |records|
      invariant 0 <= row <= |records| && registry.Valid()
      invariant |cellsOf| == numCols && forall c :: 0 <= c < numCols ==> cellsOf[c] == ColumnCells(records[..row], c)
      invariant Passed(dtypes, prefixes, parseF64, stats, maps, cellsOf) && MirrorsRegistry(registry, maps)
    {
      var record := records[row];
      var j := 0;
      assert forall cells: seq<string> :: cells + [] == cells;
      while j < |record|
        invariant 0 <= j <= |record| && registry.Valid()
        invariant |cellsOf| == numCols && forall c :: 0 <= c < numCols ==>
          cellsOf[c] == ColumnCells(records[..row], c) + (if c < j then [record[c]] else [])
        invariant Passed(dtypes, prefixes, parseF64, stats, maps, cellsOf) && MirrorsRegistry(registry, maps)
      {
        if j < numCols {
          stats, maps := TrackColumnCell(registry, dtypes, prefixes, parseF64, stats, maps, cellsOf, j, record[j]);
          cellsOf := cellsOf[j := cellsOf[j] + [record[j]]];
        }
        j := j + 1;
      }
      forall c | 0 <= c < numCols
        ensures ColumnCells(records[..row + 1], c) == ColumnCells(records[..row], c) + (if c < |record| then [record[c]] else [])
      {
        ColumnCellsTake(records, row, c);
      }
      row := row + 1;
    }
    assert records[..|records|] == records;
    assert cellsOf == AllCells(records, numCols);
  }

  // ---------------------------------------------------------------------
  // Column assembly
  // ---------------------------------------------------------------------

  /** The final class: an overflowed tracker makes every column but a Recode or Phi one HighCardinality. */
  function CsvClassification(nameClass: Classification, high: bool): Classification {
    if high && nameClass != Recode && nameClass != Phi then HighCardinality else nameClass
  }

  /** A recoded column's labels in ascending order. */
  ghost function SortedLabels(m: map<string, string>): seq<string> {
    StringOrderIsTotal();
    Ascending(m.Values, LexLe)
  }

  /**
   * The name, position, type, class, warnings and statistics of the entry
   * for column `index` with header `header` and name check `check`.
   */
  ghost predicate HeadRules(col: ColumnSchema, header: string, check: ColumnNameResult, index: nat, dtype: DType,
                            st: Stats.StatState, options: ProcessingOptions)
  {
    var high := st.unique.highCardinality;
    var cls := CsvClassification(check.classification, high);
    && col.name == NameValue(cls, header)
    && col.index == index && col.dtype == dtype && col.classification == cls
    && col.warnings == (if check.warning.Some? then [check.warning.value] else [])
    && (CountsFit(st) ==> col.stats == Some(BuildStats(dtype, st, high && cls != Recode, options.bucketCounts)))
  }

  /**
   * The distinct values of an entry with class `cls`: a Recode column's
   * labels, sorted; a Safe or Warning column's values that pass the filter;
   * nothing for a Phi or HighCardinality column.
   */
  ghost predicate ValueRules(u: Option<seq<SafeValue>>, cls: Classification, st: Stats.StatState,
                             m: map<string, string>, k: nat)
  {
    && (cls == Recode ==> u == NonEmpty(ShortStrings(SortedLabels(m))))
    && (cls == Safe || cls == Warning ==> ExportsPassing(u, st.unique.values, st.unique.valueCounts, k))
    && (cls == Phi || cls == HighCardinality ==> u.None?)
  }

  /** The whole entry of a CSV column with final tracker `st` and recoder mappings `m`. */
  ghost predicate CsvColumnRules(col: ColumnSchema, header: string, check: ColumnNameResult, index: nat, dtype: DType,
                                 st: Stats.StatState, m: map<string, string>, options: ProcessingOptions)
  {
    HeadRules(col, header, check, index, dtype, st, options)
    && ValueRules(col.uniqueValues, col.classification, st, m, options.kAnonymity)
  }

  /** The entry before its distinct values are filled in. */
  method ColumnHead(header: string, check: ColumnNameResult, index: nat, dtype: DType,
                    st: Stats.StatState, options: ProcessingOptions) returns (col: ColumnSchema)
    requires CountsFit(st)
    ensures HeadRules(col, header, check, index, dtype, st, options) && col.uniqueValues.None?
  {
    var high := st.unique.highCardinality;
    var classification := check.classification;
    if high && classification != Recode && classification != Phi {
      classification := HighCardinality;
    }
    col := NewColumnSchema(NameValue(classification, header), index, dtype).(classification := classification);
    if check.warning.Some? {
      col := col.(warnings := col.warnings + [check.warning.value]);
    }
    col := col.(stats := Some(BuildStats(dtype, st, high && classification != Recode, options.bucketCounts)));
  }

  /**
   * The distinct values an entry of class `cls` exports, where `recoded` is
   * what `get_recoded_values` gives for the column and `m` its mappings.
   */
  method UniqueValuesFor(recoded: Option<seq<string>>, ghost m: map<string, string>, cls: Classification,
                         st: Stats.StatState, k: nat) returns (u: Option<seq<SafeValue>>)
    requires cls == Recode ==> recoded == Some(SortedLabels(m))
    requires cls == Safe ==> !st.unique.highCardinality
    requires cls == Warning ==> !st.unique.highCardinality
    ensures ValueRules(u, cls, st, m, k)
  {
    u := None;
    if cls == Recode {
      if recoded.Some? {
        u := NonEmpty(ShortStrings(recoded.value));
      }
    } else if cls == Safe || cls == Warning {
      var safeValues := ExportableValues(st.unique.values, Some(st.unique.valueCounts), k);
      u := NonEmpty(safeValues);
      if safeValues != [] {
        assert ShortString(safeValues[0].s) in safeValues;
      }
    }
  }

  /** Building one column's schema entry from its name check, type, tracker and recoded labels. */
  method AssembleColumn(header: string, check: ColumnNameResult, index: nat, dtype: DType,
                        st: Stats.StatState, options: ProcessingOptions,
                        recoded: Option<seq<string>>, ghost m: map<string, string>) returns (col: ColumnSchema)
    requires CountsFit(st)
    requires check.classification == Recode ==> recoded == Some(SortedLabels(m))
    ensures CsvColumnRules(col, header, check, index, dtype, st, m, options)
  {
    col := ColumnHead(header, check, index, dtype, st, options);
    var u := UniqueValuesFor(recoded, m, col.classification, st, options.kAnonymity);
    col := col.(uniqueValues := u);
  }

  /** What `get_recoded_values` gives for a column: its labels, sorted, when it is recoded. */
  ghost function ExpectedLabels(keys: set<nat>, maps: seq<map<string, string>>): (r: seq<Option<seq<string>>>)
    ensures |r| == |maps|
  {
    seq(|maps|, c requires 0 <= c < |maps| => if c in keys then Some(SortedLabels(maps[c])) else None)
  }

  /**
   * What `get_recoded_values` gives for each of the `n` columns whose
   * mappings `maps` records: the sorted labels of a recoded column, nothing
   * for any other. The registry is only read, so asking for every column
   * before the entries are built gives what asking column by column during
   * the build would.
   */
  method RecodedLabelLists(registry: RecodeRegistry, n: nat, ghost maps: seq<map<string, string>>)
    returns (lists: seq<Option<seq<string>>>)
    requires registry.Valid() && MirrorsRegistry(registry, maps) && |maps| == n
    ensures lists == ExpectedLabels(registry.recoders.Keys, maps)
  {
    ghost var expected := ExpectedLabels(registry.recoders.Keys, maps);
    lists := [];
    var c := 0;
    while c < n
      invariant 0 <= c <= n && lists == expected[..c]
    {
      lists := NextLabels(registry, maps, lists, c);
      c := c + 1;
    }
    assert expected[..n] == expected;
  }

  /** One more column's answer from `get_recoded_values`. */
  method NextLabels(registry: RecodeRegistry, ghost maps: seq<map<string, string>>,
                    lists: seq<Option<seq<string>>>, c: nat) returns (lists': seq<Option<seq<string>>>)
    requires registry.Valid() && MirrorsRegistry(registry, maps) && c < |maps|
    requires lists == ExpectedLabels(registry.recoders.Keys, maps)[..c]
    ensures lists' == ExpectedLabels(registry.recoders.Keys, maps)[..c + 1]
  {
    ghost var expected := ExpectedLabels(registry.recoders.Keys, maps);
    var recoded := registry.GetRecodedValues(c);
    assert recoded == expected[c];
    assert expected[..c + 1] == expected[..c] + [expected[c]];
    lists' := lists + [recoded];
  }

  // ---------------------------------------------------------------------
  // read_with_recoding
  // ---------------------------------------------------------------------

  /** The prefix a column is registered with: only Recode columns get one. */
  function PrefixFor(check: ColumnNameResult, header: string): Option<string> {
    if check.classification == Recode then Some(RecodePrefix(header)) else None
  }

  /**
   * The registry holds exactly the columns of `prefixes`, each under its
   * name in `names` and with its prefix, and no recoder has handed out a
   * label yet.
   */
  ghost predicate FreshlyRegistered(registry: RecodeRegistry, names: map<nat, string>, prefixes: map<nat, string>)
    reads registry, registry.Repr
  {
    && registry.Valid()
    && registry.columnNames == names && registry.recoders.Keys == prefixes.Keys
    && forall c :: c in registry.recoders ==>
         registry.recoders[c].prefix == prefixes[c] && registry.recoders[c].mappings == map[]
  }

  /** The prefixes of the first `n` columns that have one. */
  ghost function PrefixMapBelow(prefixes: seq<Option<string>>, n: nat): map<nat, string> {
    map d | 0 <= d < n && d < |prefixes| && prefixes[d].Some? :: prefixes[d].value
  }

  /** The headers of the first `n` columns that have a prefix. */
  ghost function NamesBelow(headers: seq<string>, prefixes: seq<Option<string>>, n: nat): map<nat, string> {
    map d | 0 <= d < n && d < |prefixes| && d < |headers| && prefixes[d].Some? :: headers[d]
  }

  lemma BelowStep(headers: seq<string>, prefixes: seq<Option<string>>, n: nat)
    requires n < |prefixes| == |headers|
    ensures prefixes[n].None? ==> NamesBelow(headers, prefixes, n + 1) == NamesBelow(headers, prefixes, n)
    ensures prefixes[n].None? ==> PrefixMapBelow(prefixes, n + 1) == PrefixMapBelow(prefixes, n)
    ensures prefixes[n].Some? ==> NamesBelow(headers, prefixes, n + 1) == NamesBelow(headers, prefixes, n)[n := headers[n]]
    ensures prefixes[n].Some? ==> PrefixMapBelow(prefixes, n + 1) == PrefixMapBelow(prefixes, n)[n := prefixes[n].value]
  {
  }

  /** Registering column `c` afresh on top of the recoders `before` keeps the registry freshly registered. */
  lemma RegisteredStep(registry: RecodeRegistry, before: map<nat, ValueRecoder>, c: nat, header: string, prefix: string,
                       names: map<nat, string>, prefixes: map<nat, string>)
    requires registry.Valid() && before.Keys == prefixes.Keys
    requires forall d :: d in before ==> before[d].prefix == prefixes[d] && before[d].mappings == map[]
    requires c in registry.recoders && registry.recoders == before[c := registry.recoders[c]]
    requires registry.recoders[c].prefix == prefix && registry.recoders[c].mappings == map[]
    requires registry.columnNames == names[c := header]
    ensures FreshlyRegistered(registry, names[c := header], prefixes[c := prefix])
  {
    forall d | d in registry.recoders
      ensures registry.recoders[d].prefix == prefixes[c := prefix][d] && registry.recoders[d].mappings == map[]
    {
      if d != c {
        assert registry.recoders[d] == before[d];
      }
    }
  }

  /** Column `c` gets a fresh recoder under `prefix`. */
  method RegisterFresh(registry: RecodeRegistry, c: nat, header: string, prefix: string,
                       ghost names: map<nat, string>, ghost prefixes: map<nat, string>)
    requires FreshlyRegistered(registry, names, prefixes)
    modifies registry
    ensures FreshlyRegistered(registry, names[c := header], prefixes[c := prefix])
    ensures c in registry.recoders && fresh(registry.recoders[c])
    ensures registry.Repr == old(registry.Repr) + {registry.recoders[c]}
  {
    ghost var before := registry.recoders;
    registry.RegisterColumn(c, header, prefix);
    RegisteredStep(registry, before, c, header, prefix, names, prefixes);
  }

  /** Column `c` is registered when it has a prefix. */
  method RegisterIfPrefixed(registry: RecodeRegistry, c: nat, header: string, prefix: Option<string>,
                            ghost names: map<nat, string>, ghost prefixes: map<nat, string>)
    requires FreshlyRegistered(registry, names, prefixes)
    modifies registry
    ensures prefix.None? ==> FreshlyRegistered(registry, names, prefixes)
    ensures prefix.Some? ==> FreshlyRegistered(registry, names[c := header], prefixes[c := prefix.value])
    ensures forall r :: r in registry.Repr ==> r in old(registry.Repr) || fresh(r)
  {
    if prefix.Some? {
      RegisterFresh(registry, c, header, prefix.value, names, prefixes);
    }
  }

  /** The registration of column `c`, after the columns before it. */
  method RegisterNext(registry: RecodeRegistry, headers: seq<string>, prefixes: seq<Option<string>>, c: nat)
    requires c < |headers| == |prefixes|
    requires FreshlyRegistered(registry, NamesBelow(headers, prefixes, c), PrefixMapBelow(prefixes, c))
    modifies registry
    ensures FreshlyRegistered(registry, NamesBelow(headers, prefixes, c + 1), PrefixMapBelow(prefixes, c + 1))
    ensures forall r :: r in registry.Repr ==> r in old(registry.Repr) || fresh(r)
  {
    BelowStep(headers, prefixes, c);
    RegisterIfPrefixed(registry, c, headers[c], prefixes[c], NamesBelow(headers, prefixes, c), PrefixMapBelow(prefixes, c));
  }

  /** The registry set up from the header row: one fresh recoder per column with a prefix. */
  method RegisterRecodeColumns(headers: seq<string>, prefixes: seq<Option<string>>) returns (registry: RecodeRegistry)
    requires |prefixes| == |headers|
    ensures fresh(registry) && fresh(registry.Repr)
    ensures FreshlyRegistered(registry, NamesBelow(headers, prefixes, |headers|), PrefixMapBelow(prefixes, |headers|))
  {
    registry := new RecodeRegistry();
    var c := 0;
    while c < |headers|
      invariant 0 <= c <= |headers|
      invariant fresh(registry) && fresh(registry.Repr)
      invariant FreshlyRegistered(registry, NamesBelow(headers, prefixes, c), PrefixMapBelow(prefixes, c))
    {
      RegisterNext(registry, headers, prefixes, c);
      c := c + 1;
    }
  }

  /** Once every header is registered: the recoded columns are those with a prefix, each with that prefix and no labels. */
  lemma AllRegistered(registry: RecodeRegistry, headers: seq<string>, prefixes: seq<Option<string>>)
    requires |prefixes| == |headers|
    requires FreshlyRegistered(registry, NamesBelow(headers, prefixes, |headers|), PrefixMapBelow(prefixes, |headers|))
    ensures registry.Valid()
    ensures forall c: nat :: c in registry.recoders <==> c < |prefixes| && prefixes[c].Some?
    ensures forall c :: c in registry.recoders ==>
      && registry.recoders[c].prefix == prefixes[c].value && registry.recoders[c].mappings == map[]
      && registry.columnNames[c] == headers[c]
  {
  }

  /** The recode prefix of each column, none for a column that is not recoded. */
  function RecodePrefixes(headers: seq<string>, checks: seq<ColumnNameResult>): (prefixes: seq<Option<string>>)
    requires |checks| == |headers|
    ensures |prefixes| == |headers|
  {
    seq(|headers|, c requires 0 <= c < |headers| => PrefixFor(checks[c], headers[c]))
  }

  /** The recoded columns are exactly the Recode columns, each under its header and its header's prefix. */
  lemma RegistryFollowsChecks(registry: RecodeRegistry, headers: seq<string>, checks: seq<ColumnNameResult>,
                              prefixes: seq<Option<string>>)
    requires registry.Valid() && |checks| == |headers| == |prefixes|
    requires prefixes == RecodePrefixes(headers, checks)
    requires forall c: nat :: c in registry.recoders <==> c < |prefixes| && prefixes[c].Some?
    requires forall c :: c in registry.recoders ==>
      registry.recoders[c].prefix == prefixes[c].value && registry.columnNames[c] == headers[c]
    ensures forall c: nat :: c in registry.recoders ==>
      c < |headers| && registry.columnNames[c] == headers[c] && registry.recoders[c].prefix == RecodePrefix(headers[c])
    ensures forall c :: 0 <= c < |headers| ==> (c in registry.recoders <==> checks[c].classification == Recode)
    ensures RegisteredFor(registry.recoders, registry.columnNames, headers, checks)
  {
  }

  /**
   * The registry's recoders and names after registration: exactly the Recode
   * columns have a recoder, under their own header and with their RecodePrefix.
   */
  ghost predicate RegisteredFor(recoders: map<nat, ValueRecoder>, names: map<nat, string>,
                                headers: seq<string>, checks: seq<ColumnNameResult>)
    requires |checks| == |headers|
  {
    && (forall c: nat :: c in recoders ==>
          c < |headers| && c in names && names[c] == headers[c] && recoders[c].prefix == RecodePrefix(headers[c]))
    && (forall c :: 0 <= c < |headers| ==> (c in recoders <==> checks[c].classification == Recode))
  }

  /** What the two passes leave for column `c` with recode prefix `prefix`: its type, its mappings and its tracker. */
  ghost function ColumnOutcome(p: Inference.Parsers, records: seq<seq<string>>,
                               prefix: Option<string>, c: nat): (DType, map<string, string>, Stats.StatState)
  {
    var cells := ColumnCells(records, c);
    var dtype := ColumnType(p, cells);
    var pass := ColumnPass(dtype, prefix, p.parseF64, cells);
    (dtype, pass.0, Stats.ObserveAll(MAX_UNIQUE_VALUES, pass.1))
  }

  /** A tracker that has seen at most `bound` cells, for `bound` within 64 bits, has counters that fit. */
  lemma PassedCountsFit(dtypes: seq<DType>, prefixes: seq<Option<string>>, parseF64: string -> Option<real>,
                        stats: seq<Stats.StatState>, maps: seq<map<string, string>>, cellsOf: seq<seq<string>>,
                        bound: nat)
    requires Passed(dtypes, prefixes, parseF64, stats, maps, cellsOf) && bound < U64_LIMIT
    requires forall c :: 0 <= c < |cellsOf| ==> |cellsOf[c]| <= bound
    ensures forall c :: 0 <= c < |stats| ==> CountsFit(stats[c])
  {
    forall c | 0 <= c < |stats|
      ensures CountsFit(stats[c])
    {
      Stats.ObservedBounds(MAX_UNIQUE_VALUES, ColumnPass(dtypes[c], prefixes[c], parseF64, cellsOf[c]).1);
    }
  }

  /** Column `c`'s entry, restated in terms of the column's outcome. */
  lemma ColumnConclusion(p: Inference.Parsers, records: seq<seq<string>>,
                         prefix: Option<string>, c: nat, cells: seq<string>, dtype: DType,
                         st: Stats.StatState, m: map<string, string>,
                         col: ColumnSchema, header: string, check: ColumnNameResult, options: ProcessingOptions)
    requires cells == ColumnCells(records, c) && dtype == ColumnType(p, cells)
    requires st == Stats.ObserveAll(MAX_UNIQUE_VALUES, ColumnPass(dtype, prefix, p.parseF64, cells).1)
    requires m == ColumnPass(dtype, prefix, p.parseF64, cells).0
    requires CsvColumnRules(col, header, check, c, dtype, st, m, options)
    ensures var outcome := ColumnOutcome(p, records, prefix, c);
      m == outcome.1 && CsvColumnRules(col, header, check, c, outcome.0, outcome.2, outcome.1, options)
  {
  }

  /** One entry per header, each assembled from its name check, type, tracker, labels and mappings. */
  method AssembleColumns(headers: seq<string>, checks: seq<ColumnNameResult>, dtypes: seq<DType>,
                         stats: seq<Stats.StatState>, options: ProcessingOptions,
                         recoded: seq<Option<seq<string>>>, ghost maps: seq<map<string, string>>)
    returns (columns: seq<ColumnSchema>)
    requires |checks| == |headers| == |dtypes| == |stats| == |recoded| == |maps|
    requires forall c :: 0 <= c < |headers| && checks[c].classification == Recode ==>
      recoded[c] == Some(SortedLabels(maps[c]))
    requires forall c :: 0 <= c < |stats| ==> CountsFit(stats[c])
    ensures |columns| == |headers|
    ensures forall c :: 0 <= c < |headers| ==>
      CsvColumnRules(columns[c], headers[c], checks[c], c, dtypes[c], stats[c], maps[c], options)
  {
    columns := [];
    var c := 0;
    while c < |headers|
      invariant 0 <= c <= |headers| && |columns| == c
      invariant forall d :: 0 <= d < c ==>
        CsvColumnRules(columns[d], headers[d], checks[d], d, dtypes[d], stats[d], maps[d], options)
    {
      var col := AssembleColumn(headers[c], checks[c], c, dtypes[c], stats[c], options, recoded[c], maps[c]);
      columns := columns + [col];
      c := c + 1;
    }
  }

  /**
   * Column `c` as read: the registry holds the mappings its second pass
   * produced, and its entry follows the assembly rules for its name check,
   * its type and its tracker.
   */
  ghost predicate ColumnRead(p: Inference.Parsers, records: seq<seq<string>>,
                             options: ProcessingOptions, registry: RecodeRegistry,
                             col: ColumnSchema, header: string, check: ColumnNameResult, c: nat)
    reads registry, registry.Repr
    requires registry.Valid()
  {
    var outcome := ColumnOutcome(p, records, PrefixFor(check, header), c);
    && MappingsOf(registry, c) == outcome.1
    && CsvColumnRules(col, header, check, c, outcome.0, outcome.2, outcome.1, options)
  }

  /** Every column as read, from what the registration, both passes and the assembly leave. */
  lemma ColumnsRead(p: Inference.Parsers, records: seq<seq<string>>,
                    options: ProcessingOptions, registry: RecodeRegistry,
                    headers: seq<string>, checks: seq<ColumnNameResult>, prefixes: seq<Option<string>>,
                    dtypes: seq<DType>, stats: seq<Stats.StatState>, maps: seq<map<string, string>>,
                    columns: seq<ColumnSchema>)
    requires registry.Valid()
    requires |checks| == |headers| == |prefixes| == |dtypes| == |columns|
    requires prefixes == RecodePrefixes(headers, checks)
    requires forall c :: 0 <= c < |headers| ==> dtypes[c] == ColumnType(p, ColumnCells(records, c))
    requires Passed(dtypes, prefixes, p.parseF64, stats, maps, AllCells(records, |headers|))
    requires MirrorsRegistry(registry, maps)
    requires forall c :: 0 <= c < |headers| ==>
      CsvColumnRules(columns[c], headers[c], checks[c], c, dtypes[c], stats[c], maps[c], options)
    ensures forall c :: 0 <= c < |headers| ==>
      ColumnRead(p, records, options, registry, columns[c], headers[c], checks[c], c)
  {
    var cellsOf := AllCells(records, |headers|);
    forall c | 0 <= c < |headers|
      ensures ColumnRead(p, records, options, registry, columns[c], headers[c], checks[c], c)
    {
      ColumnConclusion(p, records, prefixes[c], c, cellsOf[c], dtypes[c], stats[c], maps[c],
                       columns[c], headers[c], checks[c], options);
    }
  }

  /**
   * Both passes over the records and the assembly of one entry per header,
   * on a registry that holds a fresh recoder for each column with a prefix.
   */
  method ReadColumns(registry: RecodeRegistry, headers: seq<string>, checks: seq<ColumnNameResult>,
                     prefixes: seq<Option<string>>, records: seq<seq<string>>, options: ProcessingOptions,
                     p: Inference.Parsers)
    returns (columns: seq<ColumnSchema>)
    requires registry.Valid() && |records| < U64_LIMIT && |checks| == |headers| == |prefixes|
    requires prefixes == RecodePrefixes(headers, checks)
    requires forall c: nat :: c in registry.recoders <==> c < |prefixes| && prefixes[c].Some?
    requires forall c :: c in registry.recoders ==>
      registry.recoders[c].prefix == prefixes[c].value && registry.recoders[c].mappings == map[]
    modifies registry.Repr
    ensures registry.Valid() && unchanged(registry)
    ensures |columns| == |headers|
    ensures forall c :: 0 <= c < |headers| ==>
      ColumnRead(p, records, options, registry, columns[c], headers[c], checks[c], c)
  {
    var dtypes := InferColumnTypes(p, |headers|, records);
    var stats;
    ghost var maps;
    stats, maps := TrackColumns(registry, dtypes, prefixes, p.parseF64, records);
    PassedCountsFit(dtypes, prefixes, p.parseF64, stats, maps, AllCells(records, |headers|), |records|);
    var recoded := RecodedLabelLists(registry, |headers|, maps);
    columns := AssembleColumns(headers, checks, dtypes, stats, options, recoded, maps);
    ColumnsRead(p, records, options, registry, headers, checks, prefixes, dtypes, stats, maps, columns);
  }

  /**
   * The reader once each header's name check is known: the registry, both
   * passes and one entry per header.
   */
  method ReadChecked(headers: seq<string>, checks: seq<ColumnNameResult>, records: seq<seq<string>>,
                     options: ProcessingOptions, p: Inference.Parsers)
    returns (columns: seq<ColumnSchema>, registry: RecodeRegistry)
    requires |records| < U64_LIMIT && |checks| == |headers|
    ensures fresh(registry) && registry.Valid()
    ensures |columns| == |headers|
    ensures RegisteredFor(registry.recoders, registry.columnNames, headers, checks)
    ensures forall c :: 0 <= c < |headers| ==>
      ColumnRead(p, records, options, registry, columns[c], headers[c], checks[c], c)
  {
    var prefixes := RecodePrefixes(headers, checks);
    registry := RegisterRecodeColumns(headers, prefixes);
    AllRegistered(registry, headers, prefixes);
    RegistryFollowsChecks(registry, headers, checks, prefixes);
    columns := ReadColumns(registry, headers, checks, prefixes, records, options, p);
  }

  /**
   * `read_with_recoding`: one sheet named after the file with the bucketed
   * or exact record count, one entry per header built from its name check
   * and the column's two passes, and the registry holding each Recode
   * column's mappings.
   */
  method ReadWithRecoding(headers: seq<string>, records: seq<seq<string>>, options: ProcessingOptions,
                          p: Inference.Parsers, fileName: string)
    returns (sheets: seq<SheetSchema>, registry: RecodeRegistry)
    requires |records| < U64_LIMIT
    ensures fresh(registry) && registry.Valid()
    ensures |sheets| == 1
    ensures sheets[0].name == fileName && sheets[0].index == 0 && sheets[0].warnings == []
    ensures sheets[0].rowCount == SafeCount(|records|, options.bucketCounts)
    ensures |sheets[0].columns| == |headers|
    ensures forall c: nat :: c in registry.recoders ==>
      c < |headers| && registry.columnNames[c] == headers[c] && registry.recoders[c].prefix == RecodePrefix(headers[c])
    ensures forall c :: 0 <= c < |headers| ==>
      var check := NameChecks(headers)[c];
      && (c in registry.recoders <==> check.classification == Recode)
      && ColumnRead(p, records, options, registry, sheets[0].columns[c], headers[c], check, c)
  {
    var checks := NameChecks(headers);
    var columns;
    columns, registry := ReadChecked(headers, checks, records, options, p);
    var sheet := NewSheetSchema(fileName, 0);
    sheets := [sheet.(rowCount := SafeCount(|records|, options.bucketCounts), columns := columns)];
  }
}
