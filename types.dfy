/**
 * The manifest's value and schema types: the privacy-safe value, data types,
 * column classifications, per-column statistics, column/sheet/manifest
 * schemas, the supported file formats and the processing options, with
 * their constructors and defaults.
 */
module Types {
  import opened Strings

  /** Longest string (in UTF-8 bytes) that may be exported verbatim. */
  const MAX_SHORT_STRING_LEN: nat := 32
  /** Distinct values tracked per column before it counts as high cardinality. */
  const MAX_UNIQUE_VALUES: nat := 2000
  /** Default k-anonymity threshold. */
  const DEFAULT_K_ANONYMITY: nat := 5
  /** Number of non-missing values sampled before the initial type inference. */
  const TYPE_INFERENCE_SAMPLE_SIZE: nat := 2000

  const I64_MIN: int := -0x8000_0000_0000_0000
  const I64_MAX: int := 0x7FFF_FFFF_FFFF_FFFF
  const U64_LIMIT: int := 0x1_0000_0000_0000_0000

  /** Rust's `n as i64` on a `u64`: reinterpretation of the 64 bits, two's complement. */
  function AsI64(n: nat): (r: int)
    requires n < U64_LIMIT
    ensures I64_MIN <= r <= I64_MAX
    ensures (r - n) % U64_LIMIT == 0
  {
    if n <= I64_MAX then n else n - U64_LIMIT
  }

  lemma AsI64Small(n: nat)
    requires n <= I64_MAX
    ensures AsI64(n) == n
  {
  }

  /** `f64::sqrt(x)`, kept symbolic: the non-negative number whose square is `radicand`. */
  datatype Root = RootOf(radicand: real)

  /** A value that may appear in the manifest. */
  datatype SafeValue =
    | Integer(i: int)
    | Float(f: real)
    | Boolean(b: bool)
    | ShortString(s: string)
    | Suppressed(reason: string)

  /**
   * `SafeValue::from_string`: the string itself when it is at most 32 bytes
   * long, otherwise a suppression carrying the given reason.
   */
  function FromString(s: string, reasonIfTooLong: string): (r: SafeValue)
    ensures r.ShortString? || r.Suppressed?
    ensures r.ShortString? <==> Utf8Len(s) <= MAX_SHORT_STRING_LEN
    ensures r.ShortString? ==> r.s == s && Utf8Len(r.s) <= MAX_SHORT_STRING_LEN
    ensures r.Suppressed? ==> r.reason == reasonIfTooLong
  {
    if Utf8Len(s) > MAX_SHORT_STRING_LEN then Suppressed(reasonIfTooLong) else ShortString(s)
  }

  datatype DType = DInteger | DNumeric | DString | DDate | DDatetime | DBoolean | DFreeText

  datatype Classification = Safe | Warning | Phi | Recode | HighCardinality

  datatype ColumnStats = ColumnStats(
    count: Option<SafeValue>,
    missingCount: Option<SafeValue>,
    min: Option<SafeValue>,
    max: Option<SafeValue>,
    mean: Option<real>,
    stdDev: Option<Root>,
    median: Option<real>,
    uniqueCount: Option<SafeValue>)

  datatype Option<T> = None | Some(value: T)

  /** The failures the core reports: I/O, the two file parsers, and an unknown extension. */
  datatype Error =
    | IoError(message: string)
    | CsvError(message: string)
    | ExcelError(message: string)
    | UnsupportedFormat(message: string)

  datatype Result<T> = Ok(value: T) | Err(error: Error)

  datatype ColumnSchema = ColumnSchema(
    name: SafeValue,
    index: nat,
    dtype: DType,
    classification: Classification,
    stats: Option<ColumnStats>,
    uniqueValues: Option<seq<SafeValue>>,
    warnings: seq<string>)

  /** `ColumnSchema::new`: classified Safe, with no statistics, values or warnings yet. */
  function NewColumnSchema(name: SafeValue, index: nat, dtype: DType): (c: ColumnSchema)
    ensures c.name == name && c.index == index && c.dtype == dtype
    ensures c.classification == Safe && c.stats.None? && c.uniqueValues.None? && c.warnings == []
  {
    ColumnSchema(name, index, dtype, Safe, None, None, [])
  }

  datatype SheetSchema = SheetSchema(
    name: string,
    index: nat,
    rowCount: SafeValue,
    columns: seq<ColumnSchema>,
    warnings: seq<string>)

  /** `SheetSchema::new`: an empty sheet with an exact row count of zero. */
  function NewSheetSchema(name: string, index: nat): (s: SheetSchema)
    ensures s.name == name && s.index == index
    ensures s.rowCount == Integer(0) && s.columns == [] && s.warnings == []
  {
    SheetSchema(name, index, Integer(0), [], [])
  }

  datatype FileFormat = Csv | Tsv | Excel

  /**
   * `FileFormat::from_extension`: matched on the lower-cased extension, so
   * "CSV", "Csv" and "csv" agree.
   */
  function FromExtension(ext: string): (r: Option<FileFormat>)
    ensures r == Some(Csv) <==> ToLower(ext) == "csv"
    ensures r == Some(Tsv) <==> ToLower(ext) in ["tsv", "tab"]
    ensures r == Some(Excel) <==> ToLower(ext) in ["xlsx", "xls", "xlsm", "xlsb"]
  {
    var e := ToLower(ext);
    if e == "csv" then Some(Csv)
    else if e == "tsv" || e == "tab" then Some(Tsv)
    else if e == "xlsx" || e == "xls" || e == "xlsm" || e == "xlsb" then Some(Excel)
    else None
  }

  /** Extensions that differ only in ASCII case name the same format. */
  lemma FromExtensionIgnoresCase(a: string, b: string)
    requires EqIgnoreAsciiCase(a, b)
    ensures FromExtension(a) == FromExtension(b)
  {
  }

  datatype ProcessingOptions = ProcessingOptions(
    kAnonymity: nat,
    bucketCounts: bool,
    exactCounts: bool,
    exactMedian: bool,
    hashFile: bool,
    relaxed: bool)

  /** `ProcessingOptions::default`: the strict setting. */
  function DefaultOptions(): (o: ProcessingOptions)
    ensures o.kAnonymity == DEFAULT_K_ANONYMITY == 5
    ensures o.bucketCounts && !o.exactCounts && !o.exactMedian && o.hashFile && !o.relaxed
  {
    ProcessingOptions(DEFAULT_K_ANONYMITY, true, false, false, true, false)
  }

  datatype ManifestSchema = ManifestSchema(
    version: string,
    fileName: string,
    fileHash: Option<string>,
    format: FileFormat,
    sheets: seq<SheetSchema>,
    warnings: seq<string>,
    options: ProcessingOptions)

  /** `ManifestSchema::new`: version "1.0.0", no hash, no sheets, default options. */
  function NewManifestSchema(fileName: string, format: FileFormat): (m: ManifestSchema)
    ensures m.version == "1.0.0" && m.fileName == fileName && m.format == format
    ensures m.fileHash.None? && m.sheets == [] && m.warnings == [] && m.options == DefaultOptions()
  {
    ManifestSchema("1.0.0", fileName, None, format, [], [], DefaultOptions())
  }
}
