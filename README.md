# ert-manifest privacy pipeline in Dafny

This project models the privacy core of ert-manifest. ert-manifest reads a
CSV, TSV or Excel file and produces a manifest of the file's structure that
can leave a clinical site: one schema entry per column of every sheet. Each
entry holds:

- the column's name, or a suppression marker where the name itself is
  identifying;
- its inferred type and its privacy classification (Safe, Warning, Recode,
  Phi, HighCardinality);
- bucketed or exact counts;
- numeric summaries, for Integer and Numeric columns only;
- the distinct values that are safe to show.

Site-identifying columns are recoded to `Prefix_A`, `Prefix_B`, and so on.
The key to that recoding goes into a separate sidekick text that stays at
the site.

The model follows the repository's structure, one module per source file:

| module (file) | models |
|---|---|
| `Types` (types.dfy) | `SafeValue`, `DType`, `Classification`, `FileFormat`, `ProcessingOptions`, the schema records and their constructors |
| `Bucketing` (bucketing.dfy) | the eight count ranges and `safe_count` |
| `ColumnNames` (column_names.dfy) | the three pattern lists and the first-match name classifier |
| `ColumnNameExamples` (column_name_examples.dfy) | the worked name examples of the source's tests, with the list facts they need |
| `ValuePatterns` (value_patterns.dfy) | the value shape tests, each regex written out as a piece matcher |
| `Suppression` (suppression.dfy) | the ordered suppression checks |
| `Recoding` (recoding.dfy) | `index_to_label`, the `ValueRecoder` and `RecodeRegistry` classes, the sidekick text |
| `Inference` (inference.dfy) | the missing and boolean tests, and the `TypeInferencer` class as a sample-then-widen state machine |
| `Stats` (stats.dfy) | the `CappedUniqueTracker`, `WelfordStats`, `P2Quantile` and `ColumnStatTracker` classes |
| `ColumnAssembly` (assembly.dfy) | the column-assembly rules the two readers share |
| `CsvReader` (csv_reader.dfy) | `read_with_recoding` for CSV/TSV and `determine_recode_prefix` |
| `ExcelReader` (excel_reader.dfy) | the cell tests of the Excel reader, `process_sheet` and `read` |
| `Schema` (schema.dfy) | `extract_schema`: the format check, the hash and read errors, the sidekick decision and global-warning de-duplication |
| `Strings`, `Sorting` (strings.dfy, sorting.dfy) | the parts of Rust's string and sorting library the core relies on: ASCII lowercasing, `trim`, `split`, UTF-8 byte length, decimal rendering, sorting |

Each class follows the same pattern, and so do the readers:

- Every class exposes its fields as a value, `State()`.
- Each method promises `State() == Step(old(State()), input)` for a pure
  step function.
- The source's promises are proved as lemmas about the step functions and
  their folds.
- The readers are methods whose loops are proved against those folds.
  Each column entry is then stated in terms of the column's own cells.

## Model

| member | source | states |
|---|---|---|
| Types.FromString | src/types.rs:28-36 | a ShortString holding `s` exactly when `s` is at most 32 UTF-8 bytes long, otherwise Suppressed with the given reason; so every ShortString it makes fits the limit |
| Types.AsI64 | src/privacy/bucketing.rs:22 | the `u64 as i64` cast: a value in the i64 range that agrees with `n` modulo 2^64 |
| Types.AsI64Small | src/privacy/bucketing.rs:22 | a count of at most 2^63-1 keeps its value through the cast |
| Types.NewColumnSchema | src/types.rs:134-144 | a new column entry has the given name, index and type, class Safe, no stats, no distinct values and no warnings |
| Types.NewSheetSchema | src/types.rs:168-176 | a new sheet has the given name and index, row count Integer(0), no columns and no warnings |
| Types.FromExtension | src/types.rs:230-237 | after ASCII lowercasing: csv gives Csv; tsv or tab gives Tsv; xlsx, xls, xlsm or xlsb gives Excel; each in both directions, so anything else gives None |
| Types.FromExtensionIgnoresCase | src/types.rs:230-231 | two extensions that differ only in ASCII case map to the same format |
| Types.DefaultOptions | src/types.rs:262-272 | the defaults are k = 5, bucketed counts, no exact counts, no exact median, hashing on, not relaxed |
| Types.NewManifestSchema | src/types.rs:207-217 | a new manifest has version "1.0.0", the given file name and format, no hash, no sheets, no warnings and the default options |
| Bucketing.BucketIndex | src/privacy/bucketing.rs:4-15 | the index of the range that contains `n`: its lower bound is at most `n`, and so is its upper bound where there is one |
| Bucketing.BucketCount | src/privacy/bucketing.rs:4-15 | total: every count gets one of the eight labels, each at most 8 characters |
| Bucketing.BucketCountSound | src/privacy/bucketing.rs:5-14 | the label is that of the range containing `n`, and the label ">1000" is given exactly when n > 1000 |
| Bucketing.BucketLabelsDistinct | src/privacy/bucketing.rs:6-13 | the eight labels are pairwise distinct, so each count has exactly one |
| Bucketing.BucketMonotonic | src/privacy/bucketing.rs:5-14 | n <= m implies that the bucket of n comes no later than the bucket of m |
| Bucketing.BucketLabelFits | src/privacy/bucketing.rs:6-13 | every label fits the 32-byte short-string limit |
| Bucketing.BucketBoundaries | src/privacy/bucketing.rs:30-78 | the boundary cases: 0, 1, 2 and 5, 6 and 10, 11 and 20, 21 and 100, 101 and 1000, and 1001 |
| Bucketing.SafeCount | src/privacy/bucketing.rs:18-24 | bucketed: ShortString of the label; otherwise Integer of the i64 cast, which is `n` itself below 2^63 |
| ColumnNames.SafeResult | src/privacy/column_names.rs:225-231 | Safe with no pattern and no warning |
| ColumnNames.PhiResult | src/privacy/column_names.rs:233-242 | Phi, carrying the pattern and the "values suppressed" warning naming it |
| ColumnNames.RecodeResult | src/privacy/column_names.rs:244-253 | Recode, carrying the pattern and the "values will be recoded" warning naming it |
| ColumnNames.WarningResult | src/privacy/column_names.rs:255-264 | Warning, carrying the pattern and the "review recommended" warning naming it |
| ColumnNames.Normalize | src/privacy/column_names.rs:297-300 | every '-', ' ' and '.' becomes '_', every other character stays, and the length is kept |
| ColumnNames.FirstMatch | src/privacy/column_names.rs:273-277 | the early-return pattern loop: it finds a pattern exactly when one matches, and the one it finds is the first in list order |
| ColumnNames.Classify | src/privacy/column_names.rs:268-294 | first-match priority: Phi iff a PHI pattern matches; Recode iff none does and a site pattern does; Warning iff neither does and a warn-only pattern does; otherwise Safe. The result names the first matching pattern of its list, and a pattern and a warning are present exactly when the class is not Safe |
| ColumnNames.CheckColumnName | src/privacy/column_names.rs:268-294 | on the lowercased, separator-normalised name: Phi iff a PHI pattern matches; Recode iff none does and a site pattern does; Warning iff neither does and a warn-only pattern does; Safe iff no pattern of the three lists matches |
| ColumnNames.CheckColumnNameNamesPattern | src/privacy/column_names.rs:272-293 | a Phi, Recode or Warning result names the first matching pattern of the list that decided it, with that class's warning; a Safe result names no pattern and no warning |
| ColumnNames.NameChecks | src/readers/csv.rs:72 | one name check per header, the i-th being `check_column_name` of the i-th header |
| ColumnNames.ClassifiedByNormalizedName | src/privacy/column_names.rs:269-270 | two names with the same normalised form classify alike |
| ColumnNames.PrefixPattern | src/privacy/column_names.rs:305-307 | a pattern ending in '_' matches exactly the names that start with it |
| ColumnNames.SuffixPattern | src/privacy/column_names.rs:310-312 | a pattern starting (and not ending) with '_' matches exactly the names that end with it |
| ColumnNames.MatchIsDelimited | src/privacy/column_names.rs:314-336 | a plain pattern that matches occurs in the name bounded by '_' or by the name's ends |
| ColumnNames.DelimitedIsMatch | src/privacy/column_names.rs:314-336 | a plain pattern that occurs bounded by '_' or by the ends matches |
| ColumnNames.PlainPatternIsWholeWord | src/privacy/column_names.rs:314-336 | matching for a plain pattern is whole-word: it matches iff it occurs bounded by '_' or by the name's ends, never as a bare substring |
| ColumnNames.SegmentPattern | src/privacy/column_names.rs:314-336 | a pattern with no '_' matches iff it is one of the name's '_'-separated segments |
| ColumnNames.MatchUsesNameChars | src/privacy/column_names.rs:303-336 | every character of a matching pattern occurs in the name |
| ColumnNames.MatchInList | src/privacy/column_names.rs:273-291 | a matching pattern anywhere in a list makes the list match |
| ColumnNameExamples.PatientNameSpellings | src/privacy/column_names.rs:438-447 | "PATIENT_NAME", "patient-name" and "patient name" all normalise to "patient_name" |
| ColumnNameExamples.PatientNameIsPhi | src/privacy/column_names.rs:362-365 | "PATIENT_NAME" classifies as Phi |
| ColumnNameExamples.PatientNameExamples | src/privacy/column_names.rs:438-447 | the three spellings of patient name get the same result, and it is Phi |
| ColumnNames.PrefixWordMatches | src/privacy/column_names.rs:329-333 | a plain pattern followed by '_' at the start of the name matches |
| ColumnNameExamples.SubjIdExample | src/privacy/column_names.rs:513-516 | "subj_id" classifies as Phi |
| ColumnNameExamples.NormalizedIsSelf | src/privacy/column_names.rs:269-270 | a name of lower-case ASCII letters and '_' is its own normalised form |
| ColumnNameExamples.TwoSegmentMatches | src/privacy/column_names.rs:303-336 | the only patterns that can match a name `a_b` of two '_'-free segments are the empty pattern, `a`, `b`, `a_b`, the prefix form `a_` and the suffix form `_b` |
| ColumnNameExamples.PhiPatternsShaped | src/privacy/column_names.rs:4-186 | every PHI pattern is plain, except the abbreviations "pt_" and "_pt" |
| ColumnNameExamples.TwoSegmentListMatch | src/privacy/column_names.rs:303-336 | in a list of plain patterns and those two abbreviations, a pattern matching `a_b` is `a`, `b` or `a_b` |
| ColumnNameExamples.TwoSegmentNoMatch | src/privacy/column_names.rs:273-291 | such a list that holds none of `a`, `b` and `a_b` has no pattern matching `a_b` |
| ColumnNameExamples.PhiAvoidsExamples | src/privacy/column_names.rs:4-186 | no PHI pattern is a segment or the whole of "site_code", "record_id", "centre_hospitalier", "treatment_group" or "dose_mg" |
| ColumnNameExamples.ExampleNotPhi | src/privacy/column_names.rs:272-277 | so no PHI pattern matches any of those names, and the PHI loop falls through |
| ColumnNameExamples.ClassifiedRecode | src/privacy/column_names.rs:272-284 | with no PHI match, the first matching site pattern gives the Recode result naming it |
| ColumnNameExamples.ClassifiedWarning | src/privacy/column_names.rs:272-291 | with no PHI or site match, the first matching warn-only pattern gives the Warning result naming it |
| ColumnNameExamples.SiteCodeExample | src/privacy/column_names.rs:566-569 | "site_code" is Recode on "site" |
| ColumnNameExamples.CentreHospitalierExample | src/privacy/column_names.rs:652-655 | "centre_hospitalier" is Recode on "centre" |
| ColumnNameExamples.RecordIdExample | src/privacy/column_names.rs:410-415 | "record_id" is Warning on "id" |
| ColumnNameExamples.TreatmentGroupExample | src/privacy/column_names.rs:425-428 | "treatment_group" is Safe |
| ColumnNameExamples.DoseMgExample | src/privacy/column_names.rs:431-434 | "dose_mg" is Safe |
| ValuePatterns.Digits | src/privacy/value_patterns.rs:36-46 | `\d{n}` as n mandatory digit pieces |
| ValuePatterns.SafeResult | src/privacy/value_patterns.rs:13-19 | not PHI, with no pattern and no description |
| ValuePatterns.PhiResult | src/privacy/value_patterns.rs:21-27 | PHI, with the given pattern and description |
| ValuePatterns.CheckTrimmed | src/privacy/value_patterns.rs:59-106 | the cascade: is_phi iff a pattern is named iff a description is given iff one of the shapes matches. Each name is given exactly when its shape matches and no earlier shape does, in the order email, phone, ssn, zip, postal, long_id |
| ValuePatterns.CheckValuePattern | src/privacy/value_patterns.rs:52-93 | the checks run on the trimmed value, and an empty trimmed value is safe |
| ValuePatterns.MatchLength | src/privacy/value_patterns.rs:35-46 | a matched text has at least as many characters as the mandatory pieces and at most as many as all pieces |
| ValuePatterns.DigitRunMatch | src/privacy/value_patterns.rs:35-46 | an all-digit text matches a digits-with-optional-punctuation pattern iff its length is the number of mandatory digits |
| ValuePatterns.MatchAppend | src/privacy/value_patterns.rs:35-46 | matches of two patterns concatenate to a match of the concatenated pattern |
| ValuePatterns.DigitsMatchDigits | src/privacy/value_patterns.rs:40 | an all-digit text matches `\d{n}` for its own length n |
| ValuePatterns.PieceFacts | src/privacy/value_patterns.rs:35-46 | phone needs 10 digits, SSN 9, ZIP 5 or 10 characters; a postal code has 6 mandatory pieces out of 7 |
| ValuePatterns.EmptyHasNoShape | src/privacy/value_patterns.rs:55-57 | the empty text matches no shape |
| ValuePatterns.BlankIsSafe | src/privacy/value_patterns.rs:53-57 | a whitespace-only value is safe (test lines 174-177) |
| ValuePatterns.SurroundingWhitespaceIgnored | src/privacy/value_patterns.rs:53 | trimming a value first does not change its result |
| ValuePatterns.LettersOnlyNotPhi | src/privacy/value_patterns.rs:96-106 | a letters-only text is never PHI, whatever its length (test lines 153-157) |
| ValuePatterns.DigitsOnlyPhi | src/privacy/value_patterns.rs:35-46 | a non-empty all-digit text is PHI iff it has 5, 9 or 10 digits: 10 is a phone, 9 an SSN, 5 a ZIP. So 12 digits are safe (test lines 159-163) |
| ValuePatterns.ZipPlusFourIsPhi | src/privacy/value_patterns.rs:39-40 | five digits, '-', four digits is a ZIP+4 and PHI (test lines 134-137) |
| ValuePatterns.ShortNumberExample | src/privacy/value_patterns.rs:166 | "42" is not PHI |
| ValuePatterns.DecimalExample | src/privacy/value_patterns.rs:170 | "3.14159" is not PHI |
| ValuePatterns.MatchSplit | src/privacy/value_patterns.rs:35-46 | a match of a concatenated pattern splits into matches of its two parts |
| ValuePatterns.MandatoryMatch | src/privacy/value_patterns.rs:42-49 | a pattern of mandatory pieces only matches exactly the texts of its length whose characters are in the pieces' classes |
| ValuePatterns.PostalShape | src/privacy/value_patterns.rs:42-43 | a Canadian postal code is letter-digit-letter, an optional whitespace, digit-letter-digit, letters in either case (test lines 140-143) |
| Suppression.UnwrapOr | src/privacy/suppression.rs:55 | the value when there is one, otherwise the default |
| Suppression.ShouldSuppressValue | src/privacy/suppression.rs:45-85 | the first failing check supplies the reason: a Phi column gives PhiColumn; otherwise over 32 bytes gives TooLong; otherwise count < k gives BelowKThreshold; otherwise a PHI shape gives PhiValue. None iff all four checks pass |
| Suppression.SafeStringValue | src/privacy/suppression.rs:89-104 | ShortString(value) exactly when nothing suppresses it, and then it is at most 32 bytes; otherwise Suppressed with the reason's text |
| Suppression.SafeForExportMeans | src/privacy/suppression.rs:108-115 | safe for export iff not a Phi column, at most 32 bytes, count >= k and no PHI shape |
| Suppression.PhiColumnAlwaysSuppressed | src/privacy/suppression.rs:53-57 | a Phi column suppresses every value, whatever its count (test lines 139-148) |
| Suppression.CountAtThresholdKept | src/privacy/suppression.rs:68-70 | count 3 with k = 5 is BelowKThreshold(3, 5), and count 5 with k = 5 is kept (test lines 122-136) |
| Suppression.LengthBeforeK | src/privacy/suppression.rs:60-70 | the length check comes before the k check: an over-long value in a non-Phi column is reported TooLong even when its count is below k (tests lines 163-168 with a count of 100) |
| Recoding.Letter | src/privacy/recoding.rs:75 | the d-th capital letter |
| Recoding.Label | src/privacy/recoding.rs:69-83 | the bijective base-26 label: non-empty, only 'A'..'Z', a single letter exactly below 26 |
| Recoding.LabelIndexOfLabel | src/privacy/recoding.rs:69-83 | decoding a label gives back its index |
| Recoding.LabelOfLabelIndex | src/privacy/recoding.rs:69-83 | every capital-letter string is the label of its own decoded index |
| Recoding.LabelIsBijective | src/privacy/recoding.rs:69-83 | labels are injective, and every capital-letter string is a label: a bijection between naturals and non-empty capital strings |
| Recoding.LabelExamples | src/privacy/recoding.rs:172-180 | 0 is A, 1 is B, 25 is Z, 26 is AA, 27 is AB, 51 is AZ, 52 is BA |
| Recoding.IndexToLabel | src/privacy/recoding.rs:69-83 | the loop computes the label of `index` |
| Recoding.TaggedInjective | src/privacy/recoding.rs:46 | `prefix_label` tags of different indices differ |
| Recoding.InjectiveValues | src/privacy/recoding.rs:55-60 | an injective map has as many values as keys |
| Recoding.ValueRecoder.constructor | src/privacy/recoding.rs:16-22 | a new recoder has the prefix, no mappings and counter 0 |
| Recoding.ValueRecoder.ForSites | src/privacy/recoding.rs:26-28 | a new recoder with prefix "Site" |
| Recoding.ValueRecoder.GenerateLabel | src/privacy/recoding.rs:43-47 | the tag of the current counter, and the counter goes up by one |
| Recoding.ValueRecoder.Recode | src/privacy/recoding.rs:32-40 | deterministic and append-only. A known value gets its old label and nothing changes. A new value gets `prefix_label(counter)`, is added to the mappings, and the counter goes up. The recoder stays valid: the counter equals the number of mappings, and labels are distinct, in first-occurrence order |
| Recoding.ValueRecoder.MappingsInjective | src/privacy/recoding.rs:32-47 | distinct originals have distinct labels |
| Recoding.ValueRecoder.Count | src/privacy/recoding.rs:63-65 | the number of mappings equals the counter |
| Recoding.ValueRecoder.ReverseMappings | src/privacy/recoding.rs:55-60 | the inverse map: every label leads back to its original, its keys are exactly the labels, and it is as large as the mappings |
| Recoding.MappingLines | src/privacy/recoding.rs:149-153 | one "label = original" line per label, in the order given |
| Recoding.RenderMappings | src/privacy/recoding.rs:149-153 | the loop produces those lines |
| Recoding.RenderColumn | src/privacy/recoding.rs:141-154 | one column's block: its "## Column c+1: name" heading, a blank line, its mapping lines sorted by label, and a blank line |
| Recoding.RenderBlocks | src/privacy/recoding.rs:139-156 | the column blocks in the order of the given column list |
| Recoding.RenderSidekick | src/privacy/recoding.rs:128-159 | the header lines, then the blocks of the columns in ascending index, joined by newlines |
| Recoding.RecodeRegistry.constructor | src/privacy/recoding.rs:95-100 | a new registry has no recoders and no names |
| Recoding.RecodeRegistry.RegisterColumn | src/privacy/recoding.rs:103-106 | the column gets a fresh empty recoder with the prefix and the given name; other columns are unchanged |
| Recoding.RecodeRegistry.Install | src/privacy/recoding.rs:104-105 | the insert into both maps, keeping the registry valid |
| Recoding.RecodeRegistry.Recode | src/privacy/recoding.rs:109-111 | an unregistered column gets None and nothing changes. A registered one is recoded by its own recoder, as ValueRecoder.Recode states, the other recoders are unchanged, and the registry now has recodings |
| Recoding.RecodeRegistry.GetRecodedValues | src/privacy/recoding.rs:119-125 | None for an unregistered column; otherwise the column's labels sorted, once each |
| Recoding.RecodeRegistry.GenerateSidekickContent | src/privacy/recoding.rs:128-159 | the sidekick text: the columns in ascending index, each headed with its name and listing its "label = original" lines sorted by label |
| Inference.IsMissingMeans | src/inference.rs:253-256 | missing iff the trimmed value equals a missing token ignoring ASCII case |
| Inference.MissingIgnoresCaseAndPadding | src/inference.rs:253-256 | lowercasing or padding with whitespace does not change whether a value is missing |
| Inference.NaIsMissing | src/inference.rs:324-334 | "NA" is missing |
| Inference.ZeroIsNotMissing | src/inference.rs:324-334 | "0" is not missing |
| Inference.MissingExamples | src/inference.rs:324-334 | "NA" is missing and "0" is not |
| Inference.BooleanIgnoresCaseAndPadding | src/inference.rs:259-262 | lowercasing or padding does not change whether a value is boolean |
| Inference.YesIsBoolean | src/inference.rs:337-350 | "Yes" is boolean |
| Inference.TwoIsNotBoolean | src/inference.rs:337-350 | "2" is not boolean |
| Inference.ZeroOneAreBoolean | src/inference.rs:8-9 | "0" and "1" are boolean |
| Inference.BooleanExamples | src/inference.rs:337-350 | "Yes", "0" and "1" are boolean and "2" is not |
| Inference.DateIsNotDatetime | src/inference.rs:381-387 | a date without a time is not a datetime |
| Inference.EmptyFractionIsNotDatetime | src/inference.rs:59 | a '.' with no digits after it does not make a datetime |
| Inference.OrderPosition | src/inference.rs:140-152 | the place of a type in the order Boolean, Integer, Numeric, Datetime, Date |
| Inference.InitialType | src/inference.rs:132-160 | the first type in the order Boolean, Integer, Numeric, Datetime, Date that every sample fits, else String; every earlier type is refuted by some sample |
| Inference.ZeroOneSamplesAreBoolean | src/inference.rs:140-142 | samples that are all "0" or "1" give Boolean, since Boolean is tried before Integer |
| Inference.Widen | src/inference.rs:175-222 | the upgrade rule: a value that fits the current type keeps it. Otherwise Integer widens to Numeric or String, Date to Datetime or String, and Numeric, Boolean and Datetime to String. String and FreeText never change here |
| Inference.InferredType | src/inference.rs:127-129 | the current type, String when none is set |
| Inference.MissingChangesNothing | src/inference.rs:95-99 | observing a missing value changes no field (test lines 460-470) |
| Inference.ObserveKeepsConsistent | src/inference.rs:105-112 | the inferencer stays consistent and never holds more than 2000 samples |
| Inference.FullBufferTriggersInference | src/inference.rs:105-112 | the value that fills the buffer triggers initial inference, which sets the flag, empties the samples and sets the type from all the samples |
| Inference.SamplingRecords | src/inference.rs:103-108 | before the buffer fills, a non-missing value is appended to the samples and counted |
| Inference.FinalizeFacts | src/inference.rs:120-124 | finalizing does nothing when inference is done or there are no samples; it is idempotent; with samples it completes inference |
| Inference.ObserveOnlyWidens | src/inference.rs:113-116 | after initial inference each observed value keeps the type or widens it one step |
| Inference.ObserveAllOnlyWidens | src/inference.rs:163-223 | after initial inference, any sequence of values only moves the type along the widening paths |
| Inference.NonMissing | src/inference.rs:95-99 | the values that observation keeps: exactly the non-missing ones |
| Inference.SamplingPhase | src/inference.rs:95-112 | while the buffer has room, observing values appends exactly their non-missing ones to the samples |
| Inference.ShortColumnType | src/inference.rs:95-129 | a column with fewer than 2000 non-missing values ends with String if it has none, otherwise with the initial type of its non-missing values |
| Inference.SampledType | src/inference.rs:120-160 | finalizing a part-full buffer infers from exactly the buffered samples |
| Inference.GeneralTypesStay | src/inference.rs:167-173 | String and FreeText never narrow, and FreeText is final |
| Inference.FreeTextThreshold | src/inference.rs:167-173 | a String column becomes FreeText on a long value (over 100 bytes or containing a newline) once ten have already been counted: the 11th |
| Inference.LongTextAlwaysCounted | src/inference.rs:165-166 | every long value is counted, whatever the current type |
| Inference.TypeInferencer.constructor | src/inference.rs:83-92 | no type, no samples, nothing seen, not done, no free text |
| Inference.TypeInferencer.Observe | src/inference.rs:95-117 | the new fields are those of the observation step |
| Inference.TypeInferencer.FinalizeInitialInference | src/inference.rs:120-124 | the new fields are those of the finalize step |
| Inference.TypeInferencer.InferredType | src/inference.rs:127-129 | the current type, String when none is set |
| Inference.TypeInferencer.PerformInitialInference | src/inference.rs:132-160 | the type becomes the initial type of the samples, the flag is set and the samples are cleared |
| Inference.TypeInferencer.UpgradeTypeIfNeeded | src/inference.rs:163-223 | the new fields are those of the upgrade step |
| Stats.AddStep | src/stats.rs:306-319 | once overflowed, nothing changes. Otherwise the flag is set exactly on the (max+1)-th distinct value. Until then the value joins the set and its count goes up by one, and no other count changes. The invariant holds throughout: at most max values, the keys of the counts equal the set, every count is at least 1 |
| Stats.Seen | src/stats.rs:313 | the set of values in a sequence: exactly its members |
| Stats.AddAllMeaning | src/stats.rs:306-343 | after a sequence of adds the flag is set iff more than max distinct values were added. Otherwise the set is exactly the values added, and each count is the number of times its value was added |
| Stats.AddAllKeepsInvariant | src/stats.rs:306-319 | the tracker invariant survives any sequence of adds |
| Stats.OverflowIsFinal | src/stats.rs:307-309 | after overflow, adds are no-ops, so the flag never clears |
| Stats.RepeatCountsTwice | src/stats.rs:442-454 | adding a, b, c, a with cap 5 gives three values, a counted twice and b once |
| Stats.FourthValueOverflows | src/stats.rs:457-467 | the fourth distinct value overflows a cap of 3 |
| Stats.CappedUniqueTracker.constructor | src/stats.rs:297-304 | an empty tracker with the cap |
| Stats.CappedUniqueTracker.Add | src/stats.rs:306-319 | the new fields are those of the add step |
| Stats.CappedUniqueTracker.Values | src/stats.rs:329-335 | None iff overflowed; otherwise the tracked set, of at most max values |
| Stats.CappedUniqueTracker.UniqueCount | src/stats.rs:325-327 | the number of tracked values: at most max, and 0 after overflow |
| Stats.CappedUniqueTracker.ValueCounts | src/stats.rs:337-343 | None iff overflowed; otherwise counts of at least 1 keyed exactly by the tracked values |
| Stats.Mean | src/stats.rs:41-47 | present iff at least one value was seen |
| Stats.Variance | src/stats.rs:49-55 | present iff at least two values were seen |
| Stats.StdDev | src/stats.rs:57-59 | present iff the variance is, as its square root |
| Stats.WelfordStep | src/stats.rs:25-35 | the count goes up by one, and min and max are set |
| Stats.Minimum | src/stats.rs:32 | an element of the values that is below every one of them |
| Stats.Maximum | src/stats.rs:33 | an element of the values that is above every one of them |
| Stats.WelfordStepMoments | src/stats.rs:25-35 | one update keeps mean and m2 in step with the running sum and sum of squares |
| Stats.WelfordMoments | src/stats.rs:25-35 | after n updates the count is n, and mean and m2 agree with the sum and sum of squares |
| Stats.MomentsMean | src/stats.rs:41-55 | such a state's mean is the arithmetic mean, and its variance is the sample variance from two values on |
| Stats.WelfordMeanAndVariance | src/stats.rs:25-55 | after any values: count n, mean None iff n = 0 and otherwise the arithmetic mean, variance None iff n < 2 and otherwise the sample variance |
| Stats.WelfordExtremes | src/stats.rs:25-35 | min and max are present iff some value was seen, and are then the least and greatest value |
| Stats.OneToFiveExample | src/stats.rs:362-376 | 1 to 5 give mean 3, variance 2.5, min 1 and max 5 |
| Stats.FewValuesExample | src/stats.rs:378-393 | one value gives mean v and no variance; no values give neither |
| Stats.WelfordStats.constructor | src/stats.rs:14-22 | count 0 and no extremes |
| Stats.WelfordStats.Update | src/stats.rs:25-35 | the new fields are those of the update step |
| Stats.P2InitValid | src/stats.rs:101-114 | a new estimator satisfies the invariant |
| Stats.SortReals | src/stats.rs:180-186 | a sorted permutation of the values |
| Stats.LocateCell | src/stats.rs:133-148 | the cell of a new value is 0 to 3; the extreme heights follow the value |
| Stats.Bumped | src/stats.rs:150-153 | positions from the cell on go up by one |
| Stats.Advanced | src/stats.rs:155-158 | each desired position moves by its increment |
| Stats.AdjustMarker | src/stats.rs:160-176 | adjusting a middle marker keeps the positions strictly increasing and the end positions fixed |
| Stats.AdjustedUpTo | src/stats.rs:160-176 | the loop over markers 1 to 3 keeps the same facts |
| Stats.P2Initialize | src/stats.rs:180-186 | the heights are the five buffered values sorted, and initialized is set |
| Stats.P2Step | src/stats.rs:122-177 | the invariant is kept: until five values have been seen they are buffered and the positions are 1 to 5; from then on positions are strictly increasing, the first is 1 and the last is the count. The count goes up by one, and the fifth value sorts the buffer into the heights |
| Stats.P2Buffer | src/stats.rs:122-130 | before five values: the value is counted and appended to the buffer; the fifth sorts the buffer into the marker heights and sets initialized; the invariant is kept |
| Stats.P2Move | src/stats.rs:132-176 | once initialized: the count goes up by one, the buffer stays, and the positions stay strictly increasing from 1 to the count |
| Stats.P2All | src/stats.rs:122-177 | any sequence of updates keeps the invariant |
| Stats.P2AllProgress | src/stats.rs:122-130 | after n values the count is n, and the estimator is initialized iff n >= 5 |
| Stats.P2AllBuffer | src/stats.rs:125-130 | fewer than five values are all buffered; from five on, the buffer holds the first five, sorted |
| Stats.RoundHalfUp | src/stats.rs:227 | rounding half up, as `f64::round` does for non-negative values |
| Stats.RoundedPosition | src/stats.rs:227 | the rounded index stays within the buffer |
| Stats.QuantileOf | src/stats.rs:221-233 | None iff nothing was seen; before initialization a buffered value; afterwards the middle height |
| Stats.P2ExactForFewValues | src/stats.rs:221-233 | with 1 to 4 values, the quantile is the sorted values at the rounded position; with 5 it is the middle one |
| Stats.MedianOfThree | src/stats.rs:221-233 | the median of three sorted values is the middle one |
| Stats.MedianOfOneTwoThree | src/stats.rs:414-423 | the median of 1, 2, 3 is 2 |
| Stats.LinearBetween | src/stats.rs:203-218 | the linear fallback, used only when the neighbour in the direction of the move is more than one position away, lands between the marker's two neighbours |
| Stats.AdjustMarkerHeights | src/stats.rs:160-175 | adjusting a middle marker keeps the heights ascending and leaves the outer heights alone: a parabolic height is taken only strictly between the neighbours, otherwise the linear one |
| Stats.AdjustedHeights | src/stats.rs:160-176 | the loop over markers 1 to 3 keeps the heights ascending and the outer heights as they are |
| Stats.LocateCellHeights | src/stats.rs:133-148 | locating the cell keeps the heights ascending; the lowest becomes the smaller of itself and the value, the highest the larger |
| Stats.P2MoveHeights | src/stats.rs:132-176 | one update of an initialised estimator keeps the heights ascending, with the lowest and highest following the value as above |
| Stats.SortedFiveHeights | src/stats.rs:180-186 | the five sorted first values are ascending heights whose lowest is their minimum and highest their maximum |
| Stats.P2AllHeights | src/stats.rs:122-186 | from the fifth value on, the heights are ascending, the lowest is the least value seen and the highest the greatest |
| Stats.P2QuantileWithinRange | src/stats.rs:221-233 | for any non-empty run of values the quantile estimate exists and lies between the least and the greatest value seen |
| Stats.P2Quantile.constructor | src/stats.rs:101-114 | the fields of `new(p)`, and the invariant holds |
| Stats.P2Quantile.Median | src/stats.rs:117-119 | an estimator for p = 0.5 |
| Stats.P2Quantile.Update | src/stats.rs:122-177 | the arrays and fields become those of the update step, so the marker invariant is kept |
| Stats.P2Quantile.BufferValue | src/stats.rs:122-130 | the fields become those of the buffering step |
| Stats.P2Quantile.MoveMarkers | src/stats.rs:132-176 | the arrays and fields become those of the marker step |
| Stats.P2Quantile.Initialize | src/stats.rs:180-186 | the buffer is sorted into the heights and initialized is set |
| Stats.P2Quantile.FindCell | src/stats.rs:133-148 | the cell and heights that LocateCell gives |
| Stats.P2Quantile.BumpPositions | src/stats.rs:150-153 | the positions that Bumped gives |
| Stats.P2Quantile.AdvanceDesired | src/stats.rs:155-158 | the desired positions that Advanced gives |
| Stats.P2Quantile.AdjustMarkers | src/stats.rs:160-176 | the heights and positions that AdjustedUpTo gives |
| Stats.P2Quantile.AdjustMarkerAt | src/stats.rs:160-176 | the heights and positions that AdjustMarker gives |
| Stats.NumericStep | src/stats.rs:262-266 | update_numeric: the missing count is unchanged and the numeric count goes up by one |
| Stats.StringStep | src/stats.rs:268-270 | update_string: only the unique tracker changes |
| Stats.MissingStep | src/stats.rs:272-274 | update_missing: only the missing count changes, by one |
| Stats.ObserveStep | src/stats.rs:262-274 | one tracker call of any kind keeps the tracker invariant |
| Stats.ObserveAll | src/stats.rs:245-279 | any sequence of tracker calls from a fresh tracker keeps the invariant |
| Stats.ObserveAllMeaning | src/stats.rs:245-279 | after a sequence of calls: the Welford and median state of the numeric values, the number of missing calls, and the unique tracker of the tracked texts |
| Stats.CountIsNumericCalls | src/stats.rs:276-278 | `count()` is the number of update_numeric calls and the missing count the number of update_missing calls |
| Stats.ObservedBounds | src/stats.rs:245-279 | the counters never exceed the number of calls and the tracker never the cap |
| Stats.ColumnStatTracker.constructor | src/stats.rs:253-260 | fresh counters, a median estimator and a tracker with the cap |
| Stats.ColumnStatTracker.UpdateNumeric | src/stats.rs:262-266 | the new fields are those of the numeric step |
| Stats.ColumnStatTracker.UpdateString | src/stats.rs:268-270 | the new fields are those of the string step |
| Stats.ColumnStatTracker.UpdateMissing | src/stats.rs:272-274 | the new fields are those of the missing step |
| Stats.ColumnStatTracker.Count | src/stats.rs:276-278 | the Welford count |
| ColumnAssembly.NameValue | src/readers/csv.rs:165-172 | a ShortString of the header iff the column is not Phi and the header is at most 32 bytes; otherwise Suppressed, with the PHI reason for a Phi column and the length reason otherwise |
| ColumnAssembly.BuildStats | src/readers/csv.rs:182-216 | count and missing count bucketed or exact. min, max, mean, std_dev and median are present only for Integer and Numeric columns, and are then the tracker's. The unique count is suppressed when asked, otherwise bucketed or exact |
| ColumnAssembly.ExportableIsSafeForExport | src/readers/csv.rs:241-244 | the readers' inline filter agrees with is_safe_for_export for a non-Phi column |
| ColumnAssembly.ExportableValues | src/readers/csv.rs:231-249 | every tracked value that passes k, the shape test and the length limit, once each, and nothing else; rare values are dropped one by one |
| ColumnAssembly.ShortStrings | src/readers/csv.rs:222-225 | each label as a ShortString, in order |
| ColumnAssembly.NonEmpty | src/readers/csv.rs:226-228 | Some exactly when the list is non-empty |
| ColumnAssembly.ColumnCells | src/readers/csv.rs:96-99 | the column's cells in record order; a short record contributes nothing |
| ColumnAssembly.AllCells | src/readers/csv.rs:96-99 | the cells of each column |
| ColumnAssembly.FinalTypes | src/readers/csv.rs:105-108 | each inferencer's type after finalizing |
| CsvReader.RecodePrefix | src/readers/csv.rs:276-291 | the prefix of the first keyword the lowercased name contains, in the order hospital, clinic, facility, center/centre, location; otherwise "Site" |
| CsvReader.RecodeCell | src/readers/csv.rs:125-130 | an unrecoded column tracks the field itself; a recoded one tracks the field's label, a new field getting the next label |
| CsvReader.CallFor | src/readers/csv.rs:132-143 | update_numeric exactly for Integer and Numeric columns whose field parses; otherwise update_string; always with the tracked text |
| CsvReader.TrackCell | src/readers/csv.rs:122-143 | a missing field is update_missing and leaves the mappings alone; otherwise the field is recoded if the column is, then tracked as numeric or string |
| CsvReader.ColumnPass | src/readers/csv.rs:112-146 | one tracker call per cell, and no mappings for an unrecoded column |
| CsvReader.ColumnPassCalls | src/readers/csv.rs:112-146 | the i-th call is the one for the i-th cell |
| CsvReader.RecodedPass | src/readers/csv.rs:126-130 | in a recoded column the mappings are injective, their labels are the first |m| labels, and each call tracks its field's label |
| CsvReader.BlankIsMissing | src/inference.rs:253-256 | a field that is empty once trimmed is missing |
| CsvReader.NumericCellsAreNumeric | src/readers/csv.rs:132-138 | the second pass and `is_numeric` share the f64 parser: in an Integer or Numeric column a present field is tracked as a number exactly when `is_numeric` accepts it, and with the value the parser reads from its trimmed text |
| CsvReader.RecodedTrackerSeesOnlyLabels | src/readers/csv.rs:126-130 | the unique tracker of a recoded column only ever sees labels, never raw values |
| CsvReader.ObserveRecord | src/readers/csv.rs:96-102 | each column's inferencer observes its field of the record, and fields beyond the header count are ignored |
| CsvReader.InferColumnTypes | src/readers/csv.rs:89-108 | the first pass: each column's type is that of its own cells, observed and finalized |
| CsvReader.RecodeField | src/readers/csv.rs:126-130 | the registry's mappings for the column move as RecodeCell says; other recoders are unchanged |
| CsvReader.TrackField | src/readers/csv.rs:122-143 | the registry and the tracker move as TrackCell says |
| CsvReader.TrackColumnCell | src/readers/csv.rs:115-144 | one field of the second pass keeps every column's tracker and mappings equal to the pass over its cells so far |
| CsvReader.TrackColumns | src/readers/csv.rs:110-146 | the second pass: every column's tracker and mappings are those of the pass over its own cells |
| CsvReader.ColumnHead | src/readers/csv.rs:156-216 | HighCardinality only for an overflowed column that is neither Recode nor Phi; the name as NameValue says; the name check's warning; the statistics as BuildStats says, the unique count suppressed only for an overflowed non-Recode column |
| CsvReader.UniqueValuesFor | src/readers/csv.rs:218-254 | a Recode column's sorted labels when there are any; a Safe or Warning column's passing values when there are any; nothing for Phi or HighCardinality |
| CsvReader.AssembleColumn | src/readers/csv.rs:151-256 | the whole entry of one column follows those rules |
| CsvReader.RecodedLabelLists | src/readers/csv.rs:221 | each recoded column's labels, sorted; None for the others |
| CsvReader.RegisterRecodeColumns | src/readers/csv.rs:74-80 | the registration loop: exactly the columns with a prefix get a fresh empty recoder with it, and their headers as names |
| CsvReader.AllRegistered | src/readers/csv.rs:74-80 | after the loop the registry is valid and holds exactly those recoders |
| CsvReader.RecodePrefixes | src/readers/csv.rs:74-78 | a prefix for exactly the Recode-classified columns |
| CsvReader.RegistryFollowsChecks | src/readers/csv.rs:74-80 | a column is registered iff its name check is Recode, with its own header and RecodePrefix |
| CsvReader.AssembleColumns | src/readers/csv.rs:148-257 | one entry per header, each following the assembly rules |
| CsvReader.ColumnsRead | src/readers/csv.rs:89-257 | each entry, restated in terms of the column's own cells |
| CsvReader.ReadColumns | src/readers/csv.rs:83-257 | both passes and the assembly: each entry is that of its column's cells |
| CsvReader.ReadChecked | src/readers/csv.rs:70-257 | registration, both passes and the assembly, with the registry following the name checks |
| CsvReader.ReadWithRecoding | src/readers/csv.rs:58-272 | one sheet named after the file, at index 0, with the record count bucketed or exact and one entry per header. Exactly the Recode columns are registered, each with its RecodePrefix. Each entry is what the rules make from that column's cells |
| ExcelReader.RenderingExamples | src/readers/excel.rs:294-312 | Empty renders "", a string as itself, 42 as "42" and true as "true"; an error renders as "#" followed by its name (src/readers/excel.rs:41) |
| ExcelReader.MissingDataExamples | src/readers/excel.rs:316-320 | Empty and "NA" are missing and 42 is not |
| ExcelReader.GetNumericValue | src/readers/excel.rs:68-75 | a number exactly for Float, Int and DateTime cells, never for a missing one |
| ExcelReader.InferTypeFromData | src/readers/excel.rs:78-89 | None exactly for Empty and Error cells, and the native type of every other variant |
| ExcelReader.InferenceTexts | src/readers/excel.rs:144-149 | the rendered texts of exactly the cells with a native type, as the inferencer sees them |
| ExcelReader.CellCall | src/readers/excel.rs:151-160 | update_missing iff the cell is missing; update_numeric exactly for Float, Int and DateTime; otherwise update_string; with the rendered text |
| ExcelReader.CellCalls | src/readers/excel.rs:151-160 | one tracker call per cell, the i-th for the i-th cell |
| ExcelReader.BlankColumn | src/readers/excel.rs:138-167 | a column of empty or error cells is typed String, with no numeric values and every cell missing |
| ExcelReader.ScanCell | src/readers/excel.rs:144-160 | one cell keeps the column's inferencer and tracker equal to the fold over its cells so far |
| ExcelReader.ScanRow | src/readers/excel.rs:139-161 | one row extends each column's cells by its own cell, ignoring cells past the column count |
| ExcelReader.ScanRows | src/readers/excel.rs:130-162 | the row loop: every column's inferencer and tracker are those of its own cells |
| ExcelReader.HeaderOf | src/readers/excel.rs:173 | the header of the column, or "Column" and its 1-based number when the header row is short |
| ExcelReader.ExcelColumnHead | src/readers/excel.rs:178-235 | an overflowed tracker makes the column HighCardinality whatever its name class, Phi included, and its unique count suppressed. The name is decided afterwards, so it is suppressed only for a Phi column that did not overflow. Then the warning and the statistics |
| ExcelReader.ExcelUniqueValues | src/readers/excel.rs:237-261 | a Safe or Warning column's passing values when there are any, nothing otherwise |
| ExcelReader.AssembleExcelColumns | src/readers/excel.rs:169-264 | one entry per column, each following those rules |
| ExcelReader.HeaderRow | src/readers/excel.rs:117-125 | the first row's cells, rendered |
| ExcelReader.NumColumns | src/readers/excel.rs:127 | the larger of the header count and the range width |
| ExcelReader.ColumnHeaders | src/readers/excel.rs:172-173 | one header per column, defaulted where missing |
| ExcelReader.ReadColumns | src/readers/excel.rs:130-264 | each entry is what the rules make from that column's cells |
| ExcelReader.ProcessSheet | src/readers/excel.rs:91-270 | an empty range gives row count Integer(0) and no columns. Otherwise the row count is that of the rows after the header, bucketed or exact, and there is one entry per column of the wider of the header row and the range |
| ExcelReader.ReadWorksheets | src/readers/excel.rs:278-286 | the first worksheet whose range cannot be read fails the read with its error; otherwise one sheet per worksheet, in order |
| ExcelReader.Read | src/readers/excel.rs:274-287 | a workbook that cannot be opened fails with its error; otherwise its worksheets are read |
| ExcelReader.ReadWithRecoding | src/readers/mod.rs:22-26 | the default: the sheets of `read` and an empty registry, so Excel never recodes |
| ExcelReader.HighCardinalityOverridesPhi | src/readers/excel.rs:179-191 | an overflowed column is HighCardinality even with a PHI name, and its name is then the unsuppressed header when it fits |
| ExcelReader.ExcelNeverExportsPhiOrRecode | src/readers/excel.rs:237-238 | Phi and Recode columns never export values, and a Phi column that did not overflow has its name suppressed |
| ExcelReader.ExportedValuesAreSafe | src/readers/excel.rs:238-261 | exported values come only from Safe or Warning columns and are exactly the tracked values that are safe for export |
| ExcelReader.RectangularHeaders | src/readers/excel.rs:109-127 | in a rectangular range the header row has a cell for every column, so the column count is the width and every column is headed by its own cell |
| ExcelReader.DefaultHeader | src/readers/excel.rs:173 | a missing first header is "Column1", a missing third one "Column3" |
| Schema.ColumnWarnings | src/schema.rs:63-69 | each of a column's warnings as "Sheet '{name}', Column {index+1}: {warning}" |
| Schema.ColumnBlocks | src/schema.rs:61-69 | the formatted warnings of each column of a sheet |
| Schema.SheetBlocks | src/schema.rs:60-69 | the formatted warnings of each sheet |
| Schema.AddNew | src/schema.rs:70-72 | appends a warning only if it is not already there, and it is there afterwards |
| Schema.AddAllAppend | src/schema.rs:60-76 | adding two runs of warnings is adding the first, then the second |
| Schema.AddAllExtends | src/schema.rs:70-72 | adding never drops or reorders what is there, and grows by at most the warnings added |
| Schema.AddAllMembers | src/schema.rs:70-72 | a warning is in the result iff it was there before or was added |
| Schema.AddAllDistinct | src/schema.rs:70-72 | adding keeps the list free of duplicates |
| Schema.AddAllFresh | src/schema.rs:70-72 | all-new distinct warnings are simply appended, in order |
| Schema.DedupMeans | src/schema.rs:60-76 | the global warnings have no duplicates and the same members as the column warnings, and repeat-free input is kept as is |
| Schema.DedupKeepsOrder | src/schema.rs:60-76 | first-occurrence order: later warnings never move earlier ones |
| Schema.AllWarningsMembers | src/schema.rs:60-76 | a text is a global warning iff it is the formatted form of some column warning of some sheet |
| Schema.FlattenMembers | src/schema.rs:60-69 | a text is in the concatenated blocks iff it is in one of them |
| Schema.AddColumnWarnings | src/schema.rs:62-73 | the inner loop adds the column's formatted warnings |
| Schema.AddSheetWarnings | src/schema.rs:61-75 | the middle loop adds the sheet's formatted warnings |
| Schema.CollectWarnings | src/schema.rs:60-76 | the nested loop computes the de-duplicated global warnings |
| Schema.ExtractSchema | src/schema.rs:17-82 | an unsupported extension fails with "Unsupported file extension: .{ext}" before anything is read; a hash error, when hashing is on, fails with it; a read error fails with it. Otherwise the manifest has version "1.0.0", the file name ("unknown" without one), the format, the given options, a hash iff hashing is on, the sheets read and the de-duplicated warnings. A sidekick is present iff the registry has recodings, and is then its sidekick text |
| Schema.RecodeSidekick | src/schema.rs:53-57 | the sidekick text exactly when some recoder holds a mapping |
| Schema.Complete | src/schema.rs:50-81 | the sheets, the global warnings and the sidekick decision filled into the manifest |
| Schema.UnsupportedExtension | src/schema.rs:134-141 | "xyz" is unsupported, with the message "Unsupported file extension: .xyz", and "CSV" is Csv |
| Schema.GlobalWarningExample | src/schema.rs:64-69 | column 0 of sheet "data.csv" with warning "w" gives "Sheet 'data.csv', Column 1: w" |
| Strings.ToLower | src/privacy/column_names.rs:269 | ASCII lowercasing, character by character, keeping the length |
| Strings.Trim | src/privacy/value_patterns.rs:53 | the value without leading and trailing whitespace |
| Strings.TrimCutsOnlyWhitespace | src/privacy/value_patterns.rs:53 | trimming removes only whitespace, and only at the two ends |
| Strings.TrimIdempotent | src/inference.rs:254 | trimming twice is trimming once |
| Strings.TrimLowerCommute | src/inference.rs:260 | trimming and lowercasing commute |
| Strings.LowerIdempotent | src/privacy/column_names.rs:269 | lowercasing twice is lowercasing once |
| Strings.Split | src/privacy/column_names.rs:321 | `split('_')`: at least one piece |
| Strings.DelimitedIsPiece | src/privacy/column_names.rs:321-326 | a '_'-free text delimited by '_' or the ends is one of the pieces |
| Strings.PieceIsDelimited | src/privacy/column_names.rs:321-326 | each piece is '_'-free and delimited by '_' or the ends |
| Strings.NatToString | src/schema.rs:67 | a non-empty run of decimal digits |
| Strings.Utf8Len | src/types.rs:29 | the UTF-8 byte length, between one and four bytes per character |
| Sorting.SortStrings | src/privacy/recoding.rs:146-147 | a sorted permutation of the labels |
| Sorting.Insert | src/privacy/recoding.rs:146-147 | inserting into a sorted list keeps it sorted, adds exactly the element, and keeps it repeat-free when the element is new |
| Sorting.Sort | src/privacy/recoding.rs:146-147 | a sorted permutation, repeat-free when the input is |
| Sorting.SortedPermutationUnique | src/privacy/recoding.rs:146-147 | two sorted permutations of each other are equal under an antisymmetric total order |
| Sorting.StringOrderIsTotal | src/privacy/recoding.rs:147 | the byte-wise string order `String::cmp` uses is total and transitive |
| Sorting.StringOrderIsAntisymmetric | src/privacy/recoding.rs:147 | the string order is antisymmetric, so the sort of a set of labels is unique |
| Sorting.SetToSeq | src/readers/csv.rs:235 | a listing of a set, each member once, in no particular order |
| Sorting.SortedListingUnique | src/privacy/recoding.rs:121-122 | two sorted repeat-free listings of the same elements are equal, so the sorted labels are well defined |
| Sorting.AscendingIsSortedListing | src/privacy/recoding.rs:121-122 | the ascending listing of a set is sorted, repeat-free, as large as the set and has exactly its members |
| Sorting.SortedElements | src/privacy/recoding.rs:121-122 | the elements of a set in ascending order |

## Left out

- File I/O is not modelled: opening the file, the `csv` crate's record parsing and its errors, and calamine's workbook opening. The CSV reader takes the parsed header row and records, together with the file name. The Excel reader takes the workbook as a `Result` of worksheets, each a readable range or an error message.
- The SHA-256 file hash (src/schema.rs:85-101) is an input `Result<string>` of `ExtractSchema`. The file name and extension are inputs, in place of the path.
- `chrono::Utc::now` and its formatting are replaced by a timestamp string parameter of the sidekick.
- JSON output (src/output.rs), the GUI and argument parsing (src/cli.rs, src/main.rs), including main's rule that exact counts need relaxed mode, are not part of this model.
- The Stata, SAS and SPSS readers (src/readers/stata.rs, src/readers/sas.rs) and the error enum's messages (src/error.rs) are not part of this model.
- `create_reader` (src/readers/mod.rs:30-53) is not modelled separately. It repeats the extension check that `extract_schema` has already passed, so its own "Unknown file extension" error cannot occur. CSV and TSV differ only in the delimiter, which belongs to the parser.
- f64 is modelled as exact `real`. NaN, infinities and rounding are not modelled. `std_dev` is kept as the symbolic square root of the variance. The i64-to-f64 conversion of Excel integers is exact here.
- The integer, float and date parsers (`parse::<i64>`, `parse::<f64>`, the chrono date formats in `is_date`) are inputs of type `Parsers`. `is_numeric` and the CSV reader's `parse_numeric` both use its one `parseF64`, on the trimmed text. The model does not assume that every text `parse::<i64>` accepts is also accepted by `parse::<f64>`, although Rust guarantees it. `is_datetime` uses regexes only, so it is written out in full.
- `data_to_string`'s float rendering and `excel_serial_to_date_string` are inputs of type `Renderers`. For that reason the `Float(3.14)` rendering test and the serial-date test are not stated.
- Lowercasing and `trim` are ASCII only. Rust's `to_lowercase` and `trim` are Unicode-aware, while `eq_ignore_ascii_case` is ASCII in both. The regex classes `\d` and `\s` are read as ASCII digit and ASCII whitespace.
- u64 counters are unbounded `nat`s. The readers require fewer than 2^64 records so that `safe_count`'s cast is defined. `AsI64` models the `as i64` wrap explicitly.
- HashMap and HashSet iteration order is left unspecified. The exported distinct values of a column are stated as a repeat-free list with exactly the right members, not in any particular order.
- Recoding.ValueRecoder.GetMappings (src/privacy/recoding.rs:50-52) is the `mappings` field itself. `is_recoded` is the predicate `IsRecoded` and `has_recodings` the predicate `HasRecodings`. All three are plain boolean or field reads with no contract of their own.
- Suppression.ReasonText renders a suppression reason's text (src/privacy/suppression.rs:22-40) and carries no contract; the decision itself is what ShouldSuppressValue states.
- Stats.P2Quantile.Quantile is QuantileOf on the object's state and carries no contract of its own.
- Stats.CappedUniqueTracker: `is_high_cardinality` and `get_count` are field reads, not separate members.
- CsvReader.ReadWithRecoding collects each recoded column's sorted labels from the registry before the assembly loop instead of inside it. The registry is not changed in between, so the result is the same.
- CsvReader.ReadWithRecoding reads the records once and uses them for both passes, where the source opens and parses the file twice.
- ExcelReader.Range also accepts ragged ranges, whose rows differ in length. calamine's ranges are rectangular. For those, ExcelReader.RectangularHeaders shows that the `Column{n}` default names are never used.
- ExcelReader.ProcessSheet folds the source's `row_count == 0` check into the empty-range check. In this model a range with no rows is empty.
