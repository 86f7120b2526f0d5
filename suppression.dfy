/**
 * Suppression decision for one value of a column: four checks in a fixed
 * order (PHI column, length, k-anonymity, PHI value pattern); the first one
 * that fails supplies the reason.
 */
module Suppression {
  import opened Strings
  import opened Types
  import opened ValuePatterns

  datatype SuppressionReason =
    | BelowKThreshold(count: nat, k: nat)
    | PhiColumn(pattern: string)
    | PhiValue(pattern: string, description: string)
    | TooLong(length: nat, max: nat)
    | HighCardinalityColumn

  function UnwrapOr(o: Option<string>, default: string): (r: string)
    ensures o.Some? ==> r == o.value
    ensures o.None? ==> r == default
  {
    if o.Some? then o.value else default
  }

  /** `SuppressionReason::to_string`: the human-readable reason. */
  function ReasonText(reason: SuppressionReason): string
  {
    match reason
    case BelowKThreshold(count, k) =>
      "Count " + NatToString(count) + " below k-anonymity threshold " + NatToString(k)
    case PhiColumn(pattern) => "Column matches PHI pattern '" + pattern + "'"
    case PhiValue(pattern, description) => description + " (pattern: " + pattern + ")"
    case TooLong(length, max) => "Value length " + NatToString(length) + " exceeds maximum " + NatToString(max)
    case HighCardinalityColumn => "High cardinality column; unique values suppressed"
  }

  /**
   * `should_suppress_value`: the first failing check wins. A Phi column
   * suppresses everything; otherwise an over-long value, then a value seen
   * fewer than `k` times, then a value that looks like PHI.
   */
  function ShouldSuppressValue(value: string, count: nat, k: nat, classification: Classification,
                               phiPattern: Option<string>): (r: Option<SuppressionReason>)
    ensures classification == Phi ==> r == Some(PhiColumn(UnwrapOr(phiPattern, "unknown")))
    ensures classification != Phi && Utf8Len(value) > MAX_SHORT_STRING_LEN ==>
      r == Some(TooLong(Utf8Len(value), MAX_SHORT_STRING_LEN))
    ensures classification != Phi && Utf8Len(value) <= MAX_SHORT_STRING_LEN && count < k ==>
      r == Some(BelowKThreshold(count, k))
    ensures (classification != Phi && Utf8Len(value) <= MAX_SHORT_STRING_LEN && count >= k
             && CheckValuePattern(value).isPhi) ==>
      r == Some(PhiValue(CheckValuePattern(value).matchedPattern.value, CheckValuePattern(value).description.value))
    ensures r.None? <==>
      classification != Phi && Utf8Len(value) <= MAX_SHORT_STRING_LEN && count >= k
      && !CheckValuePattern(value).isPhi
  {
    if classification == Phi then
      Some(PhiColumn(UnwrapOr(phiPattern, "unknown")))
    else if Utf8Len(value) > MAX_SHORT_STRING_LEN then
      Some(TooLong(Utf8Len(value), MAX_SHORT_STRING_LEN))
    else if count < k then
      Some(BelowKThreshold(count, k))
    else
      var p := CheckValuePattern(value);
      if p.isPhi then
        Some(PhiValue(UnwrapOr(p.matchedPattern, "unknown"), UnwrapOr(p.description, "PHI detected")))
      else
        None
  }

  /**
   * `safe_string_value`: the value itself exactly when nothing suppresses
   * it, otherwise the reason's text; what it lets through fits 32 bytes.
   */
  function SafeStringValue(value: string, count: nat, k: nat, classification: Classification,
                           phiPattern: Option<string>): (r: SafeValue)
    ensures r.ShortString? || r.Suppressed?
    ensures r.ShortString? <==> ShouldSuppressValue(value, count, k, classification, phiPattern).None?
    ensures r.ShortString? ==> r.s == value && Utf8Len(r.s) <= MAX_SHORT_STRING_LEN
    ensures r.Suppressed? ==>
      r.reason == ReasonText(ShouldSuppressValue(value, count, k, classification, phiPattern).value)
  {
    match ShouldSuppressValue(value, count, k, classification, phiPattern)
    case Some(reason) => Suppressed(ReasonText(reason))
    case None => ShortString(value)
  }

  /** `is_safe_for_export`: all four checks pass. */
  predicate IsSafeForExport(value: string, count: nat, k: nat, classification: Classification)
  {
    ShouldSuppressValue(value, count, k, classification, None).None?
  }

  /** What "safe for export" means, check by check. */
  lemma SafeForExportMeans(value: string, count: nat, k: nat, classification: Classification)
    ensures IsSafeForExport(value, count, k, classification) <==>
      && classification != Phi
      && Utf8Len(value) <= MAX_SHORT_STRING_LEN
      && count >= k
      && !CheckValuePattern(value).isPhi
  {
  }

  /** A Phi column suppresses every value whatever its count or content. */
  lemma PhiColumnAlwaysSuppressed(value: string, count: nat, k: nat, phiPattern: Option<string>)
    ensures ShouldSuppressValue(value, count, k, Phi, phiPattern).value.PhiColumn?
  {
  }

  /** The k threshold is strict: a value seen exactly k times is not suppressed for rarity. */
  lemma CountAtThresholdKept()
    ensures ShouldSuppressValue("test", 3, 5, Safe, None) == Some(BelowKThreshold(3, 5))
    ensures ShouldSuppressValue("test", 5, 5, Safe, None).None?
  {
    TrimUnpadded("test");
    LettersOnlyNotPhi("test");
  }

  /** The length check comes before the k check: a long, rare value is reported as too long. */
  lemma LengthBeforeK(value: string, count: nat, k: nat, classification: Classification)
    requires classification != Phi && Utf8Len(value) > MAX_SHORT_STRING_LEN && count < k
    ensures ShouldSuppressValue(value, count, k, classification, None).value.TooLong?
  {
  }
}
