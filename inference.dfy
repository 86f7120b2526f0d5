/**
 * Column type inference: the first values of a column are sampled and the
 * most specific type they all fit is chosen; every later value can only widen
 * that type. Missing-value and boolean tokens are recognised here; the
 * integer, float and calendar-date parsers of the Rust standard library and
 * of `chrono` are parameters (`Parsers`).
 */
module Inference {
  import opened Strings
  import opened Types

  const TRUE_TOKENS: seq<string> := ["true", "yes", "y", "1", "t"]
  const FALSE_TOKENS: seq<string> := ["false", "no", "n", "0", "f"]

  const MISSING_TOKENS: seq<string> := [
    "", "NA", "N/A", "na", "n/a", "NULL", "null", "NaN", "nan", ".", "-", "--", "missing",
    "MISSING", "None", "none", "#N/A", "#VALUE!", "#REF!", "#DIV/0!", "#NUM!", "#NAME?", "#NULL!"]

  /** `is_missing`: the trimmed value equals one of the tokens, ignoring ASCII case. */
  predicate IsMissing(value: string) {
    exists i :: 0 <= i < |MISSING_TOKENS| && EqIgnoreAsciiCase(Trim(value), MISSING_TOKENS[i])
  }

  /** The tokens lower-cased, position by position. */
  const MISSING_LOWERED: seq<string> := [
    "", "na", "n/a", "na", "n/a", "null", "null", "nan", "nan", ".", "-", "--", "missing",
    "missing", "none", "none", "#n/a", "#value!", "#ref!", "#div/0!", "#num!", "#name?", "#null!"]

  /** The seventeen distinct lower-case forms: an independent statement of what counts as missing. */
  const MISSING_LOWER: set<string> := {
    "", "na", "n/a", "null", "nan", ".", "-", "--", "missing", "none",
    "#n/a", "#value!", "#ref!", "#div/0!", "#num!", "#name?", "#null!"}

  lemma LowerTokensFirst()
    ensures forall i :: 0 <= i < 12 ==> ToLower(MISSING_TOKENS[i]) == MISSING_LOWERED[i]
  {
    assert ToLower("NA") == "na";
    assert ToLower("N/A") == "n/a";
    assert ToLower("NULL") == "null";
    assert ToLower("NaN") == "nan";
  }

  lemma LowerTokensSecond()
    ensures forall i :: 12 <= i < |MISSING_TOKENS| ==> ToLower(MISSING_TOKENS[i]) == MISSING_LOWERED[i]
  {
    assert ToLower("MISSING") == "missing";
    assert ToLower("None") == "none";
    assert ToLower("#N/A") == "#n/a";
    assert ToLower("#VALUE!") == "#value!";
    assert ToLower("#REF!") == "#ref!";
    assert ToLower("#DIV/0!") == "#div/0!";
    assert ToLower("#NUM!") == "#num!";
    assert ToLower("#NAME?") == "#name?";
    assert ToLower("#NULL!") == "#null!";
  }

  lemma LoweredMembership(t: string)
    ensures (exists i :: 0 <= i < |MISSING_LOWERED| && t == MISSING_LOWERED[i]) <==> t in MISSING_LOWER
  {
    if t in MISSING_LOWER {
      assert t in MISSING_LOWERED;
    }
  }

  /** A value is missing exactly when its trimmed, lower-cased form is one of the seventeen forms. */
  lemma IsMissingMeans(value: string)
    ensures IsMissing(value) <==> ToLower(Trim(value)) in MISSING_LOWER
  {
    LowerTokensFirst();
    LowerTokensSecond();
    var t := ToLower(Trim(value));
    LoweredMembership(t);
    assert IsMissing(value) <==> exists i :: 0 <= i < |MISSING_LOWERED| && t == MISSING_LOWERED[i] by {
      if IsMissing(value) {
        var i :| 0 <= i < |MISSING_TOKENS| && EqIgnoreAsciiCase(Trim(value), MISSING_TOKENS[i]);
        assert t == MISSING_LOWERED[i];
      }
      if exists i :: 0 <= i < |MISSING_LOWERED| && t == MISSING_LOWERED[i] {
        var i :| 0 <= i < |MISSING_LOWERED| && t == MISSING_LOWERED[i];
        assert EqIgnoreAsciiCase(Trim(value), MISSING_TOKENS[i]);
      }
    }
  }

  /** Case and surrounding whitespace do not matter to whether a value is missing. */
  lemma MissingIgnoresCaseAndPadding(value: string, c: char)
    requires IsWhitespace(c)
    ensures IsMissing(ToLower(value)) <==> IsMissing(value)
    ensures IsMissing([c] + value) <==> IsMissing(value)
    ensures IsMissing(value + [c]) <==> IsMissing(value)
  {
    TrimLowerCommute(value);
    LowerIdempotent(Trim(value));
    TrimIgnoresLeadingSpace(value, c);
    TrimIgnoresTrailingSpace(value, c);
    IsMissingMeans(value);
    IsMissingMeans(ToLower(value));
    IsMissingMeans([c] + value);
    IsMissingMeans(value + [c]);
  }

  lemma NaForms()
    ensures Trim("NA") == "NA" && ToLower("NA") == "na"
  {
    TrimUnpadded("NA");
  }

  lemma NaIsMissing()
    ensures IsMissing("NA")
  {
    NaForms();
    IsMissingMeans("NA");
  }

  lemma ZeroIsNotMissing()
    ensures !IsMissing("0")
  {
    ZeroOneTrimmed();
    ZeroOneLowered();
    IsMissingMeans("0");
  }

  /** "NA" is missing and "0" is not. */
  lemma MissingExamples()
    ensures IsMissing("NA") && !IsMissing("0")
  {
    NaIsMissing();
    ZeroIsNotMissing();
  }

  /** `is_boolean`: the trimmed, lower-cased value is one of the true or false tokens. */
  predicate IsBoolean(value: string) {
    var lower := ToLower(Trim(value));
    lower in TRUE_TOKENS || lower in FALSE_TOKENS
  }

  /** Case and surrounding whitespace do not matter to whether a value is a boolean. */
  lemma BooleanIgnoresCaseAndPadding(value: string, c: char)
    requires IsWhitespace(c)
    ensures IsBoolean(ToLower(value)) <==> IsBoolean(value)
    ensures IsBoolean([c] + value) <==> IsBoolean(value)
    ensures IsBoolean(value + [c]) <==> IsBoolean(value)
  {
    TrimLowerCommute(value);
    LowerIdempotent(Trim(value));
    TrimIgnoresLeadingSpace(value, c);
    TrimIgnoresTrailingSpace(value, c);
  }

  lemma YesIsBoolean()
    ensures IsBoolean("Yes")
  {
    TrimUnpadded("Yes");
    assert ToLower("Yes") == "yes";
  }

  lemma TwoIsNotBoolean()
    ensures !IsBoolean("2")
  {
    TrimUnpadded("2");
  }

  lemma ZeroOneTrimmed()
    ensures Trim("0") == "0" && Trim("1") == "1"
  {
    TrimUnpadded("0");
    TrimUnpadded("1");
  }

  lemma ZeroOneLowered()
    ensures ToLower("0") == "0" && ToLower("1") == "1"
  {
  }

  lemma ZeroOneAreBoolean()
    ensures IsBoolean("0") && IsBoolean("1")
  {
    ZeroOneTrimmed();
    ZeroOneLowered();
  }

  /** "Yes", "0" and "1" are booleans; "2" is not. */
  lemma BooleanExamples()
    ensures IsBoolean("Yes") && IsBoolean("0") && IsBoolean("1") && !IsBoolean("2")
  {
    YesIsBoolean();
    ZeroOneAreBoolean();
    TwoIsNotBoolean();
  }

  /**
   * The parsers the inference consults: whether a trimmed, non-empty string
   * parses as an `i64`; the `f64` it parses to, if any (the same parser
   * reads the numbers the CSV reader tracks); and whether it is a calendar
   * date in one of the supported date layouts.
   */
  datatype Parsers = Parsers(parsesI64: string -> bool, parseF64: string -> Option<real>, parsesDate: string -> bool)

  /** `is_integer`. */
  predicate IsInteger(p: Parsers, value: string) {
    var t := Trim(value);
    t != [] && p.parsesI64(t)
  }

  /** `is_numeric`. */
  predicate IsNumeric(p: Parsers, value: string) {
    var t := Trim(value);
    t != [] && p.parseF64(t).Some?
  }

  /** `is_date`. */
  predicate IsDate(p: Parsers, value: string) {
    var t := Trim(value);
    t != [] && p.parsesDate(t)
  }

  predicate DigitsBetween(t: string, from: nat, to: nat)
    requires from <= to <= |t|
  {
    forall i :: from <= i < to ==> IsAsciiDigit(t[i])
  }

  /**
   * The three datetime layouts: `YYYY-MM-DD`, then `T` or a space, then
   * `hh:mm:ss`, followed by nothing, by `Z`, or by `.` and one or more digits.
   */
  predicate IsDatetimeText(t: string) {
    && |t| >= 19
    && DigitsBetween(t, 0, 4) && t[4] == '-' && DigitsBetween(t, 5, 7) && t[7] == '-' && DigitsBetween(t, 8, 10)
    && (t[10] == 'T' || t[10] == ' ')
    && DigitsBetween(t, 11, 13) && t[13] == ':' && DigitsBetween(t, 14, 16) && t[16] == ':' && DigitsBetween(t, 17, 19)
    && (|t| == 19 || t[19..] == "Z" || (|t| >= 21 && t[19] == '.' && DigitsBetween(t, 20, |t|)))
  }

  /** `is_datetime`: the trimmed value has one of the datetime layouts. */
  predicate IsDatetime(value: string) {
    var t := Trim(value);
    t != [] && IsDatetimeText(t)
  }

  /** A bare date is not a datetime. */
  lemma DateIsNotDatetime()
    ensures !IsDatetime("2024-01-15")
  {
    TrimUnpadded("2024-01-15");
  }

  /** A fraction needs at least one digit after the dot. */
  lemma EmptyFractionIsNotDatetime()
    ensures !IsDatetime("2024-01-15T10:30:00.")
  {
    TrimUnpadded("2024-01-15T10:30:00.");
    assert "2024-01-15T10:30:00."[19..] == ".";
  }

  /** Whether a value fits a type during the initial inference. */
  predicate Fits(p: Parsers, t: DType, value: string) {
    match t
    case DBoolean => IsBoolean(value)
    case DInteger => IsInteger(p, value)
    case DNumeric => IsNumeric(p, value)
    case DDatetime => IsDatetime(value)
    case DDate => IsDate(p, value)
    case DString => true
    case DFreeText => true
  }

  predicate AllFit(p: Parsers, samples: seq<string>, t: DType) {
    forall i :: 0 <= i < |samples| ==> Fits(p, t, samples[i])
  }

  /** The types tried by the initial inference, most specific first. */
  const INFERENCE_ORDER: seq<DType> := [DBoolean, DInteger, DNumeric, DDatetime, DDate]

  /** Position of a type among those tried; `String`, the fallback, comes after all of them. */
  function OrderPosition(t: DType): (k: nat)
    ensures k <= |INFERENCE_ORDER|
    ensures k < |INFERENCE_ORDER| ==> INFERENCE_ORDER[k] == t
  {
    match t
    case DBoolean => 0
    case DInteger => 1
    case DNumeric => 2
    case DDatetime => 3
    case DDate => 4
    case _ => 5
  }

  /**
   * The type chosen from the samples: all samples fit it, and every type
   * tried before it has a sample that does not fit.
   */
  function InitialType(p: Parsers, samples: seq<string>): (t: DType)
    ensures t == DString || t in INFERENCE_ORDER
    ensures AllFit(p, samples, t)
    ensures OrderPosition(t) > 0 ==> !AllFit(p, samples, DBoolean)
    ensures OrderPosition(t) > 1 ==> !AllFit(p, samples, DInteger)
    ensures OrderPosition(t) > 2 ==> !AllFit(p, samples, DNumeric)
    ensures OrderPosition(t) > 3 ==> !AllFit(p, samples, DDatetime)
    ensures OrderPosition(t) > 4 ==> !AllFit(p, samples, DDate)
  {
    if AllFit(p, samples, DBoolean) then DBoolean
    else if AllFit(p, samples, DInteger) then DInteger
    else if AllFit(p, samples, DNumeric) then DNumeric
    else if AllFit(p, samples, DDatetime) then DDatetime
    else if AllFit(p, samples, DDate) then DDate
    else DString
  }

  /** Samples that are all "0" or "1" are read as a boolean column. */
  lemma ZeroOneSamplesAreBoolean(p: Parsers, samples: seq<string>)
    requires forall i :: 0 <= i < |samples| ==> samples[i] == "0" || samples[i] == "1"
    ensures InitialType(p, samples) == DBoolean
  {
    ZeroOneAreBoolean();
    assert AllFit(p, samples, DBoolean);
  }

  /** The fields of a `TypeInferencer` other than its fixed sample limit. */
  datatype InferenceState = InferenceState(
    currentType: Option<DType>,
    samples: seq<string>,
    valuesSeen: nat,
    initialInferenceDone: bool,
    freeTextCount: nat)

  /**
   * What holds between calls: before the initial inference no type is chosen
   * and the buffer has room; after it a type is chosen and the buffer is empty.
   */
  predicate Consistent(st: InferenceState) {
    && (!st.initialInferenceDone ==> st.currentType.None? && |st.samples| < TYPE_INFERENCE_SAMPLE_SIZE)
    && (st.initialInferenceDone ==> st.currentType.Some? && st.samples == [])
  }

  /** `perform_initial_inference`. */
  function InitialInference(p: Parsers, st: InferenceState): InferenceState {
    if st.samples == [] then st.(currentType := Some(DString), initialInferenceDone := true)
    else st.(currentType := Some(InitialType(p, st.samples)), initialInferenceDone := true, samples := [])
  }

  /** A value that counts towards free text: over 100 bytes or containing a line break. */
  predicate IsLongText(value: string) {
    Utf8Len(value) > 100 || '\n' in value
  }

  /** The match in `upgrade_type_if_needed`: the wider type a value forces, or `None` when it fits. */
  function Widen(p: Parsers, current: DType, value: string): (r: Option<DType>)
    ensures r.Some? ==> WidensTo(current, r.value) && r.value != DFreeText
    ensures current == DString || current == DFreeText ==> r.None?
    ensures current == DInteger ==> (r.None? <==> IsInteger(p, value))
    ensures current == DNumeric ==> (r.None? <==> IsNumeric(p, value))
    ensures current == DBoolean ==> (r.None? <==> IsBoolean(value))
    ensures current == DDate ==> (r == Some(DDatetime) <==> IsDatetime(value))
    ensures current == DDate ==> (r.None? <==> !IsDatetime(value) && IsDate(p, value))
    ensures current == DDatetime ==> (r.None? <==> IsDatetime(value) || IsDate(p, value))
  {
    match current
    case DInteger => if !IsInteger(p, value) then Some(if IsNumeric(p, value) then DNumeric else DString) else None
    case DNumeric => if !IsNumeric(p, value) then Some(DString) else None
    case DBoolean => if !IsBoolean(value) then Some(DString) else None
    case DDate => if IsDatetime(value) then Some(DDatetime) else if !IsDate(p, value) then Some(DString) else None
    case DDatetime => if !IsDatetime(value) && !IsDate(p, value) then Some(DString) else None
    case DString => None
    case DFreeText => None
  }

  /** `upgrade_type_if_needed`. */
  function UpgradeStep(p: Parsers, st: InferenceState, value: string): InferenceState {
    var current := if st.currentType.Some? then st.currentType.value else DString;
    var freeText := if IsLongText(value) then st.freeTextCount + 1 else st.freeTextCount;
    if IsLongText(value) && freeText > 10 && current == DString then
      st.(freeTextCount := freeText, currentType := Some(DFreeText))
    else
      match Widen(p, current, value)
      case None => st.(freeTextCount := freeText)
      case Some(t) => st.(freeTextCount := freeText, currentType := Some(t))
  }

  /** `observe`, for a buffer of `maxSamples` entries. */
  function ObserveStep(p: Parsers, maxSamples: nat, st: InferenceState, value: string): InferenceState {
    if IsMissing(value) then st
    else
      var counted := st.(valuesSeen := st.valuesSeen + 1);
      if !counted.initialInferenceDone then
        var sampled := if |counted.samples| < maxSamples then counted.(samples := counted.samples + [value]) else counted;
        if |sampled.samples| >= maxSamples then InitialInference(p, sampled) else sampled
      else
        UpgradeStep(p, counted, value)
  }

  /** `finalize_initial_inference`. */
  function FinalizeStep(p: Parsers, st: InferenceState): InferenceState {
    if !st.initialInferenceDone && st.samples != [] then InitialInference(p, st) else st
  }

  /** `inferred_type`: the chosen type, `String` while none has been chosen. */
  function InferredType(st: InferenceState): (t: DType)
    ensures st.currentType.Some? ==> t == st.currentType.value
    ensures st.currentType.None? ==> t == DString
  {
    if st.currentType.Some? then st.currentType.value else DString
  }

  /** Observing the values one after another. */
  function ObserveAll(p: Parsers, st: InferenceState, values: seq<string>): InferenceState
    decreases |values|
  {
    if values == [] then st
    else ObserveAll(p, ObserveStep(p, TYPE_INFERENCE_SAMPLE_SIZE, st, values[0]), values[1..])
  }

  /** Observing one more value after a run is one more step. */
  lemma {:induction false} ObserveAllSnoc(p: Parsers, st: InferenceState, values: seq<string>, v: string)
    ensures ObserveAll(p, st, values + [v]) == ObserveStep(p, TYPE_INFERENCE_SAMPLE_SIZE, ObserveAll(p, st, values), v)
    decreases |values|
  {
    if values == [] {
      assert [] + [v] == [v];
    } else {
      assert (values + [v])[1..] == values[1..] + [v];
      ObserveAllSnoc(p, ObserveStep(p, TYPE_INFERENCE_SAMPLE_SIZE, st, values[0]), values[1..], v);
    }
  }

  // ----- Properties of the inference -----

  /** A missing value changes nothing, not even the count of values seen. */
  lemma MissingChangesNothing(p: Parsers, st: InferenceState, value: string)
    requires IsMissing(value)
    ensures ObserveStep(p, TYPE_INFERENCE_SAMPLE_SIZE, st, value) == st
  {
  }

  /** Observing keeps the state consistent, so the buffer never exceeds its limit. */
  lemma ObserveKeepsConsistent(p: Parsers, st: InferenceState, value: string)
    requires Consistent(st)
    ensures Consistent(ObserveStep(p, TYPE_INFERENCE_SAMPLE_SIZE, st, value))
    ensures |ObserveStep(p, TYPE_INFERENCE_SAMPLE_SIZE, st, value).samples| <= TYPE_INFERENCE_SAMPLE_SIZE
  {
  }

  /**
   * The value that fills the buffer triggers the initial inference: the type is
   * chosen from all samples including this one, and the buffer is emptied.
   */
  lemma FullBufferTriggersInference(p: Parsers, st: InferenceState, value: string)
    requires Consistent(st) && !st.initialInferenceDone && !IsMissing(value)
    requires |st.samples| == TYPE_INFERENCE_SAMPLE_SIZE - 1
    ensures var r := ObserveStep(p, TYPE_INFERENCE_SAMPLE_SIZE, st, value);
      r.initialInferenceDone && r.samples == [] && r.currentType == Some(InitialType(p, st.samples + [value]))
  {
  }

  /** Before the buffer is full, a value is only recorded. */
  lemma SamplingRecords(p: Parsers, st: InferenceState, value: string)
    requires Consistent(st) && !st.initialInferenceDone && !IsMissing(value)
    requires |st.samples| < TYPE_INFERENCE_SAMPLE_SIZE - 1
    ensures ObserveStep(p, TYPE_INFERENCE_SAMPLE_SIZE, st, value)
      == st.(samples := st.samples + [value], valuesSeen := st.valuesSeen + 1)
  {
  }

  /** Finalizing does nothing once inference is done or when nothing was sampled, and is idempotent. */
  lemma FinalizeFacts(p: Parsers, st: InferenceState)
    ensures st.initialInferenceDone || st.samples == [] ==> FinalizeStep(p, st) == st
    ensures FinalizeStep(p, FinalizeStep(p, st)) == FinalizeStep(p, st)
    ensures st.samples != [] ==> FinalizeStep(p, st).initialInferenceDone
  {
  }

  /** One step of widening: the only changes of type after the initial inference. */
  predicate WidensTo(a: DType, b: DType) {
    match a
    case DInteger => b == DNumeric || b == DString
    case DNumeric => b == DString
    case DBoolean => b == DString
    case DDate => b == DDatetime || b == DString
    case DDatetime => b == DString
    case DString => b == DFreeText
    case DFreeText => false
  }

  /** Any number of widening steps. */
  predicate Reaches(a: DType, b: DType) {
    a == b ||
    match a
    case DInteger => b in {DNumeric, DString, DFreeText}
    case DNumeric => b in {DString, DFreeText}
    case DBoolean => b in {DString, DFreeText}
    case DDate => b in {DDatetime, DString, DFreeText}
    case DDatetime => b in {DString, DFreeText}
    case DString => b == DFreeText
    case DFreeText => false
  }

  /** After the initial inference each value keeps the type or widens it by one step. */
  lemma ObserveOnlyWidens(p: Parsers, st: InferenceState, value: string)
    requires Consistent(st) && st.initialInferenceDone
    ensures var r := ObserveStep(p, TYPE_INFERENCE_SAMPLE_SIZE, st, value);
      r.initialInferenceDone && r.currentType.Some?
      && (r.currentType == st.currentType || WidensTo(st.currentType.value, r.currentType.value))
  {
  }

  /** Over any run of values after the initial inference the type only moves up the widening paths. */
  lemma {:induction false} ObserveAllOnlyWidens(p: Parsers, st: InferenceState, values: seq<string>)
    requires Consistent(st) && st.initialInferenceDone
    ensures var r := ObserveAll(p, st, values);
      Consistent(r) && r.initialInferenceDone && Reaches(st.currentType.value, r.currentType.value)
    decreases |values|
  {
    if values != [] {
      var next := ObserveStep(p, TYPE_INFERENCE_SAMPLE_SIZE, st, values[0]);
      ObserveOnlyWidens(p, st, values[0]);
      ObserveKeepsConsistent(p, st, values[0]);
      ObserveAllOnlyWidens(p, next, values[1..]);
    }
  }

  /** The values that are not missing, in their original order. */
  function NonMissing(values: seq<string>): (r: seq<string>)
    ensures |r| <= |values|
    ensures forall v :: v in r <==> v in values && !IsMissing(v)
  {
    if values == [] then []
    else if IsMissing(values[0]) then NonMissing(values[1..])
    else [values[0]] + NonMissing(values[1..])
  }

  /** The state before any value is observed. */
  const INITIAL_STATE := InferenceState(None, [], 0, false, 0)

  /**
   * While the buffer has room, observing a run of values only appends its
   * non-missing values to the samples and counts them.
   */
  lemma {:induction false} SamplingPhase(p: Parsers, st: InferenceState, values: seq<string>)
    requires Consistent(st) && !st.initialInferenceDone
    requires |st.samples| + |NonMissing(values)| < TYPE_INFERENCE_SAMPLE_SIZE
    ensures ObserveAll(p, st, values)
      == st.(samples := st.samples + NonMissing(values), valuesSeen := st.valuesSeen + |NonMissing(values)|)
    decreases |values|
  {
    if values == [] {
      assert st.samples + [] == st.samples;
    } else if IsMissing(values[0]) {
      MissingChangesNothing(p, st, values[0]);
      SamplingPhase(p, st, values[1..]);
    } else {
      var next := st.(samples := st.samples + [values[0]], valuesSeen := st.valuesSeen + 1);
      SamplingRecords(p, st, values[0]);
      SamplingPhase(p, next, values[1..]);
      assert next.samples + NonMissing(values[1..]) == st.samples + NonMissing(values);
    }
  }

  /**
   * A column with fewer non-missing values than the sample size gets, once
   * finalized, the initial type of exactly those values, or String if there
   * are none; missing values play no part.
   */
  lemma ShortColumnType(p: Parsers, values: seq<string>)
    requires |NonMissing(values)| < TYPE_INFERENCE_SAMPLE_SIZE
    ensures InferredType(FinalizeStep(p, ObserveAll(p, INITIAL_STATE, values)))
      == if NonMissing(values) == [] then DString else InitialType(p, NonMissing(values))
  {
    var samples := NonMissing(values);
    var sampled := INITIAL_STATE.(samples := samples, valuesSeen := |samples|);
    SamplingPhase(p, INITIAL_STATE, values);
    assert INITIAL_STATE.samples + samples == samples;
    assert ObserveAll(p, INITIAL_STATE, values) == sampled;
    SampledType(p, samples);
  }

  /** Finalizing an inferencer that has only sampled gives the samples' initial type. */
  lemma SampledType(p: Parsers, samples: seq<string>)
    requires |samples| < TYPE_INFERENCE_SAMPLE_SIZE
    ensures InferredType(FinalizeStep(p, INITIAL_STATE.(samples := samples, valuesSeen := |samples|)))
      == if samples == [] then DString else InitialType(p, samples)
  {
    var sampled := INITIAL_STATE.(samples := samples, valuesSeen := |samples|);
    if samples == [] {
      assert FinalizeStep(p, sampled) == sampled;
    } else {
      assert FinalizeStep(p, sampled) == InitialInference(p, sampled);
      assert InitialInference(p, sampled).currentType == Some(InitialType(p, samples));
    }
  }

  /** FreeText is never left, and String is only left for FreeText. */
  lemma {:induction false} GeneralTypesStay(p: Parsers, st: InferenceState, values: seq<string>)
    requires Consistent(st) && st.initialInferenceDone
    requires st.currentType == Some(DString) || st.currentType == Some(DFreeText)
    ensures var t := ObserveAll(p, st, values).currentType;
      t == Some(DString) || t == Some(DFreeText)
    ensures st.currentType == Some(DFreeText) ==> ObserveAll(p, st, values).currentType == Some(DFreeText)
  {
    ObserveAllOnlyWidens(p, st, values);
  }

  /**
   * A String column becomes FreeText on the long value that brings the
   * free-text count past ten; values that are not long leave it String.
   */
  lemma FreeTextThreshold(p: Parsers, st: InferenceState, value: string)
    requires Consistent(st) && st.initialInferenceDone && st.currentType == Some(DString) && !IsMissing(value)
    ensures var r := ObserveStep(p, TYPE_INFERENCE_SAMPLE_SIZE, st, value);
      r.currentType == Some(DFreeText) <==> IsLongText(value) && st.freeTextCount >= 10
  {
  }

  /** Long values are counted whatever the current type is. */
  lemma LongTextAlwaysCounted(p: Parsers, st: InferenceState, value: string)
    requires Consistent(st) && st.initialInferenceDone && !IsMissing(value) && IsLongText(value)
    ensures ObserveStep(p, TYPE_INFERENCE_SAMPLE_SIZE, st, value).freeTextCount == st.freeTextCount + 1
  {
  }

  /** `TypeInferencer`. */
  class TypeInferencer {
    var currentType: Option<DType>
    var samples: seq<string>
    const maxSamples: nat
    var valuesSeen: nat
    var initialInferenceDone: bool
    var freeTextCount: nat
    const parsers: Parsers

    function State(): InferenceState
      reads this
    {
      InferenceState(currentType, samples, valuesSeen, initialInferenceDone, freeTextCount)
    }

    ghost predicate Valid()
      reads this
    {
      maxSamples == TYPE_INFERENCE_SAMPLE_SIZE && Consistent(State())
    }

    /** `TypeInferencer::new`: nothing seen, nothing chosen. */
    constructor(parsers: Parsers)
      ensures Valid() && this.parsers == parsers
      ensures State() == InferenceState(None, [], 0, false, 0)
    {
      currentType := None;
      samples := [];
      maxSamples := TYPE_INFERENCE_SAMPLE_SIZE;
      valuesSeen := 0;
      initialInferenceDone := false;
      freeTextCount := 0;
      this.parsers := parsers;
    }

    /** `observe`. */
    method Observe(value: string)
      requires Valid()
      modifies this
      ensures Valid()
      ensures State() == ObserveStep(parsers, maxSamples, old(State()), value)
    {
      if IsMissing(value) {
        return;
      }
      valuesSeen := valuesSeen + 1;
      if !initialInferenceDone {
        if |samples| < maxSamples {
          samples := samples + [value];
        }
        if |samples| >= maxSamples {
          PerformInitialInference();
        }
      } else {
        UpgradeTypeIfNeeded(value);
      }
    }

    /** `finalize_initial_inference`. */
    method FinalizeInitialInference()
      requires Valid()
      modifies this
      ensures Valid()
      ensures State() == FinalizeStep(parsers, old(State()))
    {
      if !initialInferenceDone && samples != [] {
        PerformInitialInference();
      }
    }

    /** `inferred_type`. */
    function InferredType(): (t: DType)
      reads this
      ensures currentType.Some? ==> t == currentType.value
      ensures currentType.None? ==> t == DString
    {
      if currentType.Some? then currentType.value else DString
    }

    /** `perform_initial_inference`: the first type all samples fit, then the buffer is emptied. */
    method PerformInitialInference()
      requires |samples| <= maxSamples
      modifies this
      ensures State() == InitialInference(parsers, old(State()))
    {
      if samples == [] {
        currentType := Some(DString);
        initialInferenceDone := true;
        return;
      }
      var dtype :=
        if AllFit(parsers, samples, DBoolean) then DBoolean
        else if AllFit(parsers, samples, DInteger) then DInteger
        else if AllFit(parsers, samples, DNumeric) then DNumeric
        else if AllFit(parsers, samples, DDatetime) then DDatetime
        else if AllFit(parsers, samples, DDate) then DDate
        else DString;
      currentType := Some(dtype);
      initialInferenceDone := true;
      samples := [];
    }

    /** `upgrade_type_if_needed`. */
    method UpgradeTypeIfNeeded(value: string)
      modifies this
      ensures State() == UpgradeStep(parsers, old(State()), value)
    {
      var current := if currentType.Some? then currentType.value else DString;
      if IsLongText(value) {
        freeTextCount := freeTextCount + 1;
        if freeTextCount > 10 && current == DString {
          currentType := Some(DFreeText);
          return;
        }
      }
      var widened := Widen(parsers, current, value);
      if widened.Some? {
        currentType := widened;
      }
    }
  }
}
