/**
 * Column-name policy: a column name is lower-cased, its separators '-', ' '
 * and '.' become '_', and it is then matched against three constant pattern
 * lists in turn. The first PHI pattern that matches makes the column Phi;
 * failing that, the first site pattern makes it Recode; failing that, the
 * first warn-only pattern makes it Warning; otherwise it is Safe.
 */
module ColumnNames {
  import opened Strings
  import opened Types

  const PHI_NAMES_EN: seq<string> := ["name", "patient", "subject", "first_name", "last_name", "fname", "lname", "surname", "given_name", "initials"]
  const PHI_NAMES_FR: seq<string> := ["nom", "nom_famille", "prenom"]
  const PHI_NAMES_PT: seq<string> := ["nome", "nome_paciente", "sobrenome"]
  const PHI_RECORD_NUMBERS: seq<string> := ["mrn", "medical_record", "chart", "chart_number"]
  const PHI_CANADIAN_HEALTH_IDS: seq<string> := ["phn", "sin", "ohip", "ahcip", "msp", "healthcard", "health_card", "care_card"]
  const PHI_QUEBEC_HEALTH_IDS: seq<string> := ["nas", "nam", "numero_assurance_maladie", "ramq"]
  const PHI_BRAZILIAN_IDS: seq<string> := ["cpf", "rg", "sus", "cartao_sus", "cns", "prontuario"]
  const PHI_US_IDS: seq<string> := ["ssn", "social_security"]
  const PHI_DATES_EN: seq<string> := ["dob", "birth", "birthday", "date_of_birth", "admission_date", "discharge_date", "death_date", "date_of_death", "dod"]
  const PHI_DATES_FR: seq<string> := ["naissance", "date_naissance", "ddn"]
  const PHI_DATES_PT: seq<string> := ["nascimento", "data_nascimento", "dt_nasc", "dn"]
  const PHI_ADDRESS_EN: seq<string> := ["address", "street", "city", "zip", "postal"]
  const PHI_ADDRESS_FR: seq<string> := ["adresse"]
  const PHI_ADDRESS_PT: seq<string> := ["endereco", "municipio", "cidade", "cep", "uf"]
  const PHI_CONTACT_EN: seq<string> := ["phone", "email", "contact", "fax"]
  const PHI_CONTACT_FR: seq<string> := ["courriel", "telephone", "tel"]
  const PHI_CONTACT_PT: seq<string> := ["telefone", "fone", "cel", "celular"]
  const PHI_FAMILY_CONTACTS: seq<string> := ["kin", "next_of_kin", "emergency_contact", "guarantor"]
  const PHI_FAMILY_PT: seq<string> := ["mae", "nome_mae", "pai", "nome_pai"]
  const PHI_PROVIDERS_EN: seq<string> := ["provider", "physician", "nurse", "doctor", "attending", "resident"]
  const PHI_PROVIDERS_FR: seq<string> := ["medecin", "md", "infirmier", "infirmiere"]
  const PHI_PROVIDERS_PT: seq<string> := ["medico", "enfermeiro", "enfermeira"]
  const PHI_ABBREVIATIONS: seq<string> := ["pt_", "_pt", "subj"]
  const PHI_HEALTH_PLAN_NUMBERS: seq<string> := ["insurance", "policy", "policy_number", "beneficiary", "member_id", "subscriber", "group_number", "plan_id"]
  const PHI_ACCOUNT_NUMBERS: seq<string> := ["account", "acct", "account_number", "billing"]
  const PHI_LICENSE_NUMBERS: seq<string> := ["license", "license_number", "certificate", "cert_number", "credential"]
  const PHI_VEHICLE_IDS: seq<string> := ["vin", "vehicle", "license_plate", "plate_number"]
  const PHI_DEVICE_IDS: seq<string> := ["serial", "serial_number", "device_id", "imei", "udid", "mac_address"]
  const PHI_WEB_URLS: seq<string> := ["url", "website", "web_address", "homepage"]
  const PHI_IP_ADDRESSES: seq<string> := ["ip_address", "ipv4", "ipv6"]
  const PHI_BIOMETRICS: seq<string> := ["fingerprint", "biometric", "voiceprint", "retina", "iris_scan", "face_id"]
  const PHI_PHOTOGRAPHS: seq<string> := ["photo", "photograph", "picture", "headshot", "face_image", "portrait"]

  /** Patterns whose presence suppresses a column's values, in the order they are tried. */
  const PHI_PATTERNS: seq<string> :=
    PHI_NAMES_EN + PHI_NAMES_FR + PHI_NAMES_PT + PHI_RECORD_NUMBERS +
    PHI_CANADIAN_HEALTH_IDS + PHI_QUEBEC_HEALTH_IDS + PHI_BRAZILIAN_IDS + PHI_US_IDS +
    PHI_DATES_EN + PHI_DATES_FR + PHI_DATES_PT + PHI_ADDRESS_EN + PHI_ADDRESS_FR +
    PHI_ADDRESS_PT + PHI_CONTACT_EN + PHI_CONTACT_FR + PHI_CONTACT_PT + PHI_FAMILY_CONTACTS +
    PHI_FAMILY_PT + PHI_PROVIDERS_EN + PHI_PROVIDERS_FR + PHI_PROVIDERS_PT +
    PHI_ABBREVIATIONS + PHI_HEALTH_PLAN_NUMBERS + PHI_ACCOUNT_NUMBERS + PHI_LICENSE_NUMBERS +
    PHI_VEHICLE_IDS + PHI_DEVICE_IDS + PHI_WEB_URLS + PHI_IP_ADDRESSES + PHI_BIOMETRICS +
    PHI_PHOTOGRAPHS

  /** Site-identifying patterns: the column's values are recoded. */
  const PHI_RECODE: seq<string> := [
    "site", "hospital", "clinic", "facility", "center", "location",
    "hopital", "clinique", "centre", "etablissement"
  ]

  /** Patterns that only raise a warning. */
  const PHI_WARN_ONLY: seq<string> := [
    "id", "identifier", "code", "number", "encounter", "visit", "admission", "case"
  ]

  datatype ColumnNameResult = ColumnNameResult(
    classification: Classification,
    matchedPattern: Option<string>,
    warning: Option<string>)

  function SafeResult(): (r: ColumnNameResult)
    ensures r.classification == Safe && r.matchedPattern.None? && r.warning.None?
  {
    ColumnNameResult(Safe, None, None)
  }

  function PhiResult(pattern: string): (r: ColumnNameResult)
    ensures r.classification == Phi && r.matchedPattern == Some(pattern)
    ensures r.warning == Some("Column name matches PHI pattern '" + pattern + "'; values suppressed")
  {
    ColumnNameResult(Phi, Some(pattern),
      Some("Column name matches PHI pattern '" + pattern + "'; values suppressed"))
  }

  function RecodeResult(pattern: string): (r: ColumnNameResult)
    ensures r.classification == Recode && r.matchedPattern == Some(pattern)
    ensures r.warning == Some("Column name matches site-identifying pattern '" + pattern + "'; values will be recoded")
  {
    ColumnNameResult(Recode, Some(pattern),
      Some("Column name matches site-identifying pattern '" + pattern + "'; values will be recoded"))
  }

  function WarningResult(pattern: string): (r: ColumnNameResult)
    ensures r.classification == Warning && r.matchedPattern == Some(pattern)
    ensures r.warning == Some("Column name matches potentially sensitive pattern '" + pattern + "'; review recommended")
  {
    ColumnNameResult(Warning, Some(pattern),
      Some("Column name matches potentially sensitive pattern '" + pattern + "'; review recommended"))
  }

  predicate IsSeparator(c: char) { c == '-' || c == ' ' || c == '.' }

  /** `normalize_column_name`: every '-', ' ' and '.' becomes '_', nothing else changes. */
  function Normalize(name: string): (r: string)
    ensures |r| == |name|
    ensures forall i :: 0 <= i < |name| ==> r[i] == if IsSeparator(name[i]) then '_' else name[i]
    ensures '-' !in r && ' ' !in r && '.' !in r
  {
    seq(|name|, i requires 0 <= i < |name| => if IsSeparator(name[i]) then '_' else name[i])
  }

  /** The form of a name that the pattern lists are matched against. */
  function NormalizedName(name: string): string {
    Normalize(ToLower(name))
  }

  /** `matches_pattern`, clause for clause. */
  predicate MatchesPattern(name: string, pattern: string) {
    if EndsWith(pattern, "_") then StartsWith(name, pattern)
    else if StartsWith(pattern, "_") then EndsWith(name, pattern)
    else
      name == pattern
      || pattern in Split(name, '_')
      || StartsWith(name, pattern + "_")
      || EndsWith(name, "_" + pattern)
      || Contains(name, "_" + pattern + "_")
  }

  ghost predicate AnyMatch(name: string, patterns: seq<string>) {
    exists i :: 0 <= i < |patterns| && MatchesPattern(name, patterns[i])
  }

  /** `patterns[i]` is the first pattern of the list that matches. */
  ghost predicate FirstMatchAt(name: string, patterns: seq<string>, i: int) {
    0 <= i < |patterns| && MatchesPattern(name, patterns[i])
    && forall j :: 0 <= j < i ==> !MatchesPattern(name, patterns[j])
  }

  /** The first element of `patterns[from..]` that matches, searched in list order. */
  function FirstMatch(name: string, patterns: seq<string>, from: nat): (r: Option<nat>)
    requires from <= |patterns|
    requires forall j :: 0 <= j < from ==> !MatchesPattern(name, patterns[j])
    ensures r.Some? <==> AnyMatch(name, patterns)
    ensures r.Some? ==> FirstMatchAt(name, patterns, r.value)
    decreases |patterns| - from
  {
    if from == |patterns| then None
    else if MatchesPattern(name, patterns[from]) then Some(from)
    else FirstMatch(name, patterns, from + 1)
  }

  /**
   * The three-list cascade over an already normalised name: the first match
   * in `phi`, else the first in `recode`, else the first in `warn`, else Safe.
   */
  function Classify(n: string, phi: seq<string>, recode: seq<string>, warn: seq<string>): (r: ColumnNameResult)
    ensures r.classification == Phi <==> AnyMatch(n, phi)
    ensures r.classification == Recode <==> !AnyMatch(n, phi) && AnyMatch(n, recode)
    ensures r.classification == Warning <==> !AnyMatch(n, phi) && !AnyMatch(n, recode) && AnyMatch(n, warn)
    ensures r.classification == Safe <==> !AnyMatch(n, phi) && !AnyMatch(n, recode) && !AnyMatch(n, warn)
    ensures r.classification in {Safe, Phi, Recode, Warning}
    ensures r.classification == Safe <==> r.matchedPattern.None?
    ensures r.matchedPattern.Some? <==> r.warning.Some?
    ensures r.classification == Phi ==> exists i :: FirstMatchAt(n, phi, i) && r == PhiResult(phi[i])
    ensures r.classification == Recode ==> exists i :: FirstMatchAt(n, recode, i) && r == RecodeResult(recode[i])
    ensures r.classification == Warning ==> exists i :: FirstMatchAt(n, warn, i) && r == WarningResult(warn[i])
  {
    match FirstMatch(n, phi, 0)
    case Some(i) => PhiResult(phi[i])
    case None =>
      match FirstMatch(n, recode, 0)
      case Some(i) => RecodeResult(recode[i])
      case None =>
        match FirstMatch(n, warn, 0)
        case Some(i) => WarningResult(warn[i])
        case None => SafeResult()
  }

  /**
   * `check_column_name`: the normalised name is Phi when a PHI pattern
   * matches, else Recode when a site pattern does, else Warning when a
   * warn-only pattern does, else Safe; the result names the first pattern
   * of the list that decided it.
   */
  function CheckColumnName(name: string): (r: ColumnNameResult)
    ensures var n := NormalizedName(name);
      && (r.classification == Phi <==> AnyMatch(n, PHI_PATTERNS))
      && (r.classification == Recode <==> !AnyMatch(n, PHI_PATTERNS) && AnyMatch(n, PHI_RECODE))
      && (r.classification == Warning <==>
            !AnyMatch(n, PHI_PATTERNS) && !AnyMatch(n, PHI_RECODE) && AnyMatch(n, PHI_WARN_ONLY))
      && (r.classification == Safe <==>
            !AnyMatch(n, PHI_PATTERNS) && !AnyMatch(n, PHI_RECODE) && !AnyMatch(n, PHI_WARN_ONLY))
  {
    Classify(NormalizedName(name), PHI_PATTERNS, PHI_RECODE, PHI_WARN_ONLY)
  }

  /**
   * The result of `check_column_name` names the first pattern, in list
   * order, of the list that decided the class, with that class's warning;
   * a Safe result names none.
   */
  lemma CheckColumnNameNamesPattern(name: string)
    ensures var n, r := NormalizedName(name), CheckColumnName(name);
      && (r.classification == Safe ==> r == SafeResult())
      && (r.classification == Phi ==> exists i :: FirstMatchAt(n, PHI_PATTERNS, i) && r == PhiResult(PHI_PATTERNS[i]))
      && (r.classification == Recode ==> exists i :: FirstMatchAt(n, PHI_RECODE, i) && r == RecodeResult(PHI_RECODE[i]))
      && (r.classification == Warning ==>
            exists i :: FirstMatchAt(n, PHI_WARN_ONLY, i) && r == WarningResult(PHI_WARN_ONLY[i]))
  {
  }

  /** The name check of each header, in header order (the CSV reader's `column_checks`). */
  function NameChecks(headers: seq<string>): (checks: seq<ColumnNameResult>)
    ensures |checks| == |headers|
    ensures forall c :: 0 <= c < |headers| ==> checks[c] == CheckColumnName(headers[c])
  {
    seq(|headers|, c requires 0 <= c < |headers| => CheckColumnName(headers[c]))
  }

  /** Names that normalise alike classify alike, so case and separator style do not matter. */
  lemma ClassifiedByNormalizedName(a: string, b: string)
    requires NormalizedName(a) == NormalizedName(b)
    ensures CheckColumnName(a) == CheckColumnName(b)
  {
  }

  /** A pattern ending in '_' is a prefix test. */
  lemma PrefixPattern(name: string, pattern: string)
    requires EndsWith(pattern, "_")
    ensures MatchesPattern(name, pattern) <==> StartsWith(name, pattern)
  {
  }

  /** A pattern starting (but not ending) with '_' is a suffix test. */
  lemma SuffixPattern(name: string, pattern: string)
    requires StartsWith(pattern, "_") && !EndsWith(pattern, "_")
    ensures MatchesPattern(name, pattern) <==> EndsWith(name, pattern)
  {
  }

  /** Neither a prefix pattern nor a suffix pattern. */
  predicate PlainPattern(pattern: string) {
    pattern != [] && pattern[0] != '_' && pattern[|pattern| - 1] != '_'
  }

  lemma PlainIsNotEdge(pattern: string)
    requires PlainPattern(pattern)
    ensures !EndsWith(pattern, "_") && !StartsWith(pattern, "_")
  {
    assert pattern[..1] == [pattern[0]];
    assert pattern[|pattern| - 1..] == [pattern[|pattern| - 1]];
  }

  lemma PrefixFormIsDelimited(name: string, pattern: string)
    requires StartsWith(name, pattern + "_")
    ensures DelimitedAt(name, pattern, '_', 0)
  {
    assert name[..|pattern|] == (pattern + "_")[..|pattern|];
  }

  lemma SuffixFormIsDelimited(name: string, pattern: string)
    requires EndsWith(name, "_" + pattern)
    ensures DelimitedAt(name, pattern, '_', |name| - |pattern|)
  {
    assert name[|name| - |pattern|..] == ("_" + pattern)[1..];
  }

  lemma InfixFormIsDelimited(name: string, pattern: string) returns (at: int)
    requires Contains(name, "_" + pattern + "_")
    ensures DelimitedAt(name, pattern, '_', at)
  {
    var w := "_" + pattern + "_";
    var k :| 0 <= k <= |name| - |w| && OccursAt(name, w, k);
    var occurrence := name[k..k + |w|];
    at := k + 1;
    assert name[k] == occurrence[0] == w[0] == '_';
    assert name[at + |pattern|] == occurrence[|pattern| + 1] == w[|pattern| + 1] == '_';
    forall j | 0 <= j < |pattern| ensures name[at..at + |pattern|][j] == pattern[j] {
      assert name[at + j] == occurrence[j + 1] == w[j + 1] == pattern[j];
    }
  }

  /** A match of a plain pattern is an occurrence bounded by '_' or the ends of the name. */
  lemma MatchIsDelimited(name: string, pattern: string) returns (at: int)
    requires PlainPattern(pattern) && MatchesPattern(name, pattern)
    ensures DelimitedAt(name, pattern, '_', at)
  {
    PlainIsNotEdge(pattern);
    if name == pattern {
      at := 0;
    } else if pattern in Split(name, '_') {
      at := PieceIsDelimited(name, '_', pattern);
    } else if StartsWith(name, pattern + "_") {
      PrefixFormIsDelimited(name, pattern);
      at := 0;
    } else if EndsWith(name, "_" + pattern) {
      SuffixFormIsDelimited(name, pattern);
      at := |name| - |pattern|;
    } else {
      at := InfixFormIsDelimited(name, pattern);
    }
  }

  /** Conversely, every '_'-bounded occurrence of a plain pattern is a match. */
  lemma DelimitedIsMatch(name: string, pattern: string, at: int)
    requires PlainPattern(pattern) && DelimitedAt(name, pattern, '_', at)
    ensures MatchesPattern(name, pattern)
  {
    PlainIsNotEdge(pattern);
    var e := at + |pattern|;
    if at == 0 && e == |name| {
      assert name == pattern;
    } else if at == 0 {
      assert name[..|pattern| + 1] == pattern + "_";
    } else if e == |name| {
      assert name[at - 1..] == "_" + pattern;
    } else {
      assert name[at - 1..e + 1] == "_" + pattern + "_";
      assert OccursAt(name, "_" + pattern + "_", at - 1);
    }
  }

  /**
   * Matching is whole-word matching: a plain pattern matches exactly when it
   * occurs in the name bounded on each side by '_' or an end of the name.
   */
  lemma PlainPatternIsWholeWord(name: string, pattern: string)
    requires PlainPattern(pattern)
    ensures MatchesPattern(name, pattern) <==> exists i :: DelimitedAt(name, pattern, '_', i)
  {
    if MatchesPattern(name, pattern) {
      var at := MatchIsDelimited(name, pattern);
    }
    if exists i :: DelimitedAt(name, pattern, '_', i) {
      var i :| DelimitedAt(name, pattern, '_', i);
      DelimitedIsMatch(name, pattern, i);
    }
  }

  /**
   * For a pattern without '_', matching is segment equality: the pattern
   * matches exactly when it is one of the name's '_'-separated segments, so
   * "id" matches "record_id" but not "valid_flag".
   */
  lemma SegmentPattern(name: string, pattern: string)
    requires pattern != [] && '_' !in pattern
    ensures MatchesPattern(name, pattern) <==> pattern in Split(name, '_')
  {
    assert PlainPattern(pattern);
    PlainIsNotEdge(pattern);
    if MatchesPattern(name, pattern) {
      var at := MatchIsDelimited(name, pattern);
      DelimitedIsPiece(name, '_', pattern, at);
    }
  }

  /** Every kind of match is an occurrence, so a match uses only characters of the name. */
  lemma MatchUsesNameChars(name: string, pattern: string, j: int)
    requires MatchesPattern(name, pattern) && 0 <= j < |pattern|
    ensures pattern[j] in name
  {
    var at: int;
    if EndsWith(pattern, "_") {
      at := 0;
    } else if StartsWith(pattern, "_") {
      at := |name| - |pattern|;
    } else {
      assert PlainPattern(pattern) by {
        assert pattern[..1] == [pattern[0]];
        assert pattern[|pattern| - 1..] == [pattern[|pattern| - 1]];
      }
      at := MatchIsDelimited(name, pattern);
    }
    assert name[at..at + |pattern|][j] == pattern[j];
    assert name[at + j] == pattern[j];
  }

  lemma MatchInList(name: string, patterns: seq<string>, pattern: string)
    requires pattern in patterns && MatchesPattern(name, pattern)
    ensures AnyMatch(name, patterns)
  {
    var i :| 0 <= i < |patterns| && patterns[i] == pattern;
  }

  /** A plain pattern followed by '_' at the start of a name matches it. */
  lemma PrefixWordMatches(name: string, pattern: string)
    requires PlainPattern(pattern) && StartsWith(name, pattern + "_")
    ensures MatchesPattern(name, pattern)
  {
    PlainIsNotEdge(pattern);
  }
}
