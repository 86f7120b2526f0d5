/**
 * The column-assembly rules the CSV and Excel readers share: the exported
 * column name, the statistics block built from a column's tracker, and the
 * per-value filter that decides which distinct values reach the manifest.
 * The readers differ in when a column becomes HighCardinality and in what
 * Recode columns export; those rules live with each reader. Both readers
 * see a column as its cells in row order, and finalize one inferencer per
 * column.
 */
module ColumnAssembly {
  import opened Strings
  import opened Types
  import opened Bucketing
  import opened ValuePatterns
  import opened Sorting
  import Suppression
  import Stats
  import Inference

  const PHI_NAME_REASON: string := "Column name matches PHI pattern"
  const LONG_NAME_REASON: string := "Column name too long"
  const HIGH_CARDINALITY_REASON: string := "High cardinality; exact count suppressed"

  predicate IsNumericType(t: DType) {
    t == DInteger || t == DNumeric
  }

  /**
   * The column's exported name: withheld for a Phi column, otherwise the
   * header itself unless it is longer than 32 bytes.
   */
  function NameValue(classification: Classification, header: string): (r: SafeValue)
    ensures r.ShortString? || r.Suppressed?
    ensures r.ShortString? <==> classification != Phi && Utf8Len(header) <= MAX_SHORT_STRING_LEN
    ensures r.ShortString? ==> r.s == header
    ensures r.Suppressed? ==>
      r.reason == if classification == Phi then PHI_NAME_REASON else LONG_NAME_REASON
  {
    if classification == Phi then Suppressed(PHI_NAME_REASON)
    else FromString(header, LONG_NAME_REASON)
  }

  /**
   * The statistics block: bucketed or exact counts of the numeric and the
   * missing cells, the numeric summary only for Integer and Numeric columns,
   * and the distinct-value count unless it is to be withheld.
   */
  function BuildStats(dtype: DType, st: Stats.StatState, uniqueSuppressed: bool, bucket: bool): (r: ColumnStats)
    requires Stats.StatInvariant(st)
    requires st.welford.count < U64_LIMIT && st.missingCount < U64_LIMIT && |st.unique.values| < U64_LIMIT
    ensures r.count == Some(SafeCount(st.welford.count, bucket))
    ensures r.missingCount == Some(SafeCount(st.missingCount, bucket))
    ensures IsNumericType(dtype) ==>
      && (r.min.Some? <==> st.welford.min.Some?) && (r.min.Some? ==> r.min.value == Float(st.welford.min.value))
      && (r.max.Some? <==> st.welford.max.Some?) && (r.max.Some? ==> r.max.value == Float(st.welford.max.value))
      && r.mean == st.welford.Mean() && r.stdDev == st.welford.StdDev() && r.median == Stats.QuantileOf(st.p2)
    ensures !IsNumericType(dtype) ==>
      r.min.None? && r.max.None? && r.mean.None? && r.stdDev.None? && r.median.None?
    ensures uniqueSuppressed ==> r.uniqueCount == Some(Suppressed(HIGH_CARDINALITY_REASON))
    ensures !uniqueSuppressed ==> r.uniqueCount == Some(SafeCount(|st.unique.values|, bucket))
  {
    var numeric := IsNumericType(dtype);
    ColumnStats(
      Some(SafeCount(st.welford.count, bucket)),
      Some(SafeCount(st.missingCount, bucket)),
      if numeric && st.welford.min.Some? then Some(Float(st.welford.min.value)) else None,
      if numeric && st.welford.max.Some? then Some(Float(st.welford.max.value)) else None,
      if numeric then st.welford.Mean() else None,
      if numeric then st.welford.StdDev() else None,
      if numeric then Stats.QuantileOf(st.p2) else None,
      Some(if uniqueSuppressed then Suppressed(HIGH_CARDINALITY_REASON) else SafeCount(|st.unique.values|, bucket)))
  }

  /** The count the filter uses: the recorded one, or 1 for a value without a count. */
  function CountOr1(counts: Option<map<string, nat>>, v: string): nat {
    if counts.Some? && v in counts.value then counts.value[v] else 1
  }

  /** The per-value test: seen at least k times, no PHI shape, at most 32 bytes. */
  predicate Exportable(v: string, count: nat, k: nat) {
    count >= k && !CheckValuePattern(v).isPhi && Utf8Len(v) <= MAX_SHORT_STRING_LEN
  }

  /**
   * The readers' filter agrees with the suppression rules: a value passes it
   * exactly when no suppression reason applies to it in a non-Phi column.
   */
  lemma ExportableIsSafeForExport(v: string, count: nat, k: nat, classification: Classification)
    requires classification != Phi
    ensures Exportable(v, count, k) <==> Suppression.IsSafeForExport(v, count, k, classification)
  {
    Suppression.SafeForExportMeans(v, count, k, classification);
  }

  /**
   * The loop over the tracked values: every value that passes the test, once
   * each, as a short string, in the tracker's (unspecified) iteration order.
   */
  method ExportableValues(values: set<string>, counts: Option<map<string, nat>>, k: nat)
    returns (r: seq<SafeValue>)
    ensures forall i :: 0 <= i < |r| ==> r[i].ShortString?
    ensures forall v :: ShortString(v) in r <==> v in values && Exportable(v, CountOr1(counts, v), k)
    ensures Distinct(r) && |r| <= |values|
  {
    var listed := SetToSeq(values);
    r := [];
    var i := 0;
    while i < |listed|
      invariant 0 <= i <= |listed|
      invariant forall j :: 0 <= j < |r| ==> r[j].ShortString?
      invariant forall v :: ShortString(v) in r <==> v in listed[..i] && Exportable(v, CountOr1(counts, v), k)
      invariant Distinct(r) && |r| <= i
    {
      var value := listed[i];
      if Exportable(value, CountOr1(counts, value), k) {
        assert value !in listed[..i];
        r := r + [ShortString(value)];
      }
      assert listed[..i + 1] == listed[..i] + [value];
      i := i + 1;
    }
    assert listed[..|listed|] == listed;
  }

  /**
   * What a Safe or Warning column exports as its distinct values: nothing
   * when no tracked value passes the test, otherwise exactly the values that
   * pass, once each, as short strings.
   */
  ghost predicate ExportsPassing(u: Option<seq<SafeValue>>, values: set<string>, counts: map<string, nat>, k: nat) {
    && (u.None? <==> forall v :: v in values ==> !Exportable(v, CountOr1(Some(counts), v), k))
    && (u.Some? ==>
          && (forall i :: 0 <= i < |u.value| ==> u.value[i].ShortString?)
          && Distinct(u.value)
          && forall v :: ShortString(v) in u.value <==> v in values && Exportable(v, CountOr1(Some(counts), v), k))
  }

  /** Labels exported as short strings, in the given order. */
  function ShortStrings(labels: seq<string>): (r: seq<SafeValue>)
    ensures |r| == |labels|
    ensures forall i :: 0 <= i < |r| ==> r[i] == ShortString(labels[i])
  {
    seq(|labels|, i requires 0 <= i < |labels| => ShortString(labels[i]))
  }

  /** The unique-values field: the list when it has anything in it, otherwise nothing. */
  function NonEmpty(values: seq<SafeValue>): (r: Option<seq<SafeValue>>)
    ensures r.Some? <==> values != []
    ensures r.Some? ==> r.value == values
  {
    if values == [] then None else Some(values)
  }

  // ---------------------------------------------------------------------
  // The cells of a column
  // ---------------------------------------------------------------------

  /**
   * Column `c`'s cells in record order; a record too short to reach the
   * column contributes nothing (the readers skip cells beyond a column's reach).
   */
  function ColumnCells<T>(records: seq<seq<T>>, c: nat): (cells: seq<T>)
    ensures |cells| <= |records|
    decreases |records|
  {
    if records == [] then []
    else
      var last := records[|records| - 1];
      ColumnCells(records[..|records| - 1], c) + (if c < |last| then [last[c]] else [])
  }

  lemma ColumnCellsSnoc<T>(records: seq<seq<T>>, record: seq<T>, c: nat)
    ensures ColumnCells(records + [record], c) == ColumnCells(records, c) + (if c < |record| then [record[c]] else [])
  {
    assert (records + [record])[..|records|] == records;
  }

  lemma ColumnCellsTake<T>(records: seq<seq<T>>, row: nat, c: nat)
    requires row < |records|
    ensures ColumnCells(records[..row + 1], c) ==
      ColumnCells(records[..row], c) + (if c < |records[row]| then [records[row][c]] else [])
  {
    assert records[..row + 1] == records[..row] + [records[row]];
    ColumnCellsSnoc(records[..row], records[row], c);
  }

  /** The cells of each of the first `numCols` columns. */
  function AllCells<T>(records: seq<seq<T>>, numCols: nat): (r: seq<seq<T>>)
    ensures |r| == numCols
    ensures forall c :: 0 <= c < numCols ==> r[c] == ColumnCells(records, c)
  {
    seq(numCols, c requires 0 <= c < numCols => ColumnCells(records, c))
  }

  /** The type an inferencer settles on once it has observed these texts and been finalized. */
  function ColumnType(p: Inference.Parsers, cells: seq<string>): DType {
    Inference.InferredType(Inference.FinalizeStep(p, Inference.ObserveAll(p, Inference.INITIAL_STATE, cells)))
  }

  /** The type each inferencer settles on once finalized. */
  method FinalTypes(p: Inference.Parsers, states: seq<Inference.InferenceState>) returns (dtypes: seq<DType>)
    ensures |dtypes| == |states|
    ensures forall c :: 0 <= c < |states| ==> dtypes[c] == Inference.InferredType(Inference.FinalizeStep(p, states[c]))
  {
    dtypes := [];
    var c := 0;
    while c < |states|
      invariant 0 <= c <= |states| && |dtypes| == c
      invariant forall d :: 0 <= d < c ==> dtypes[d] == Inference.InferredType(Inference.FinalizeStep(p, states[d]))
    {
      var finalized := Inference.FinalizeStep(p, states[c]);
      dtypes := dtypes + [Inference.InferredType(finalized)];
      c := c + 1;
    }
  }

  /** The tracker's counters fit in 64 bits, as the statistics block needs. */
  ghost predicate CountsFit(st: Stats.StatState) {
    Stats.StatInvariant(st) && st.welford.count < U64_LIMIT && st.missingCount < U64_LIMIT
    && |st.unique.values| < U64_LIMIT
  }
}
